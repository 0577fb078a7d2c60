/**
 Session updates that arrive with no turn in flight, grouped into generations. The automaton of
 bindOrphanUpdate and takeOrphanTerminalLocked is proved equal to a function that groups the whole sequence.
 */
module Orphans {
  import opened Options
  import opened Strings
  import Decimal

  // ---------- the automaton ----------

  datatype Update = Update(kind: string, messageId: string)

  datatype Notification = Notification(sessionId: string, update: Update, updateId: string, terminal: bool)

  /** orphanGen, orphanID and orphanMessage; an empty id means that no generation is open. */
  datatype Orphan = Orphan(gen: nat, id: string, message: string)

  const NO_ORPHAN := Orphan(0, "", "")

  const BODIES := {
    "agent_message_chunk", "agent_message", "message", "agent_thought_chunk", "user_message_chunk", "tool_call",
    "tool_call_update", "plan"
  }

  predicate IsBodyKind(kind: string) {
    TrimSpace(kind) in BODIES
  }

  predicate IsIdleKind(kind: string) {
    TrimSpace(kind) == "available_commands_update"
  }

  function Kind(n: Notification): string {
    TrimSpace(n.update.kind)
  }

  /** The classifying functions trim a kind that is trimmed already; that changes nothing. */
  lemma KindsAreTrimmedOnce(n: Notification)
    ensures var kind := TrimSpace(n.update.kind);
      IsBodyKind(Kind(n)) <==>
        || kind == "agent_message_chunk" || kind == "agent_message" || kind == "message" || kind == "agent_thought_chunk"
        || kind == "user_message_chunk" || kind == "tool_call" || kind == "tool_call_update" || kind == "plan"
    ensures IsIdleKind(Kind(n)) <==> TrimSpace(n.update.kind) == "available_commands_update"
    ensures IsBodyKind(Kind(n)) ==> !IsIdleKind(Kind(n))
  {
    hide TrimSpace;
    TrimIsIdempotent(n.update.kind);
    IdleIsNoBody();
  }

  lemma IdleIsNoBody()
    ensures "available_commands_update" !in BODIES
  {
    assert |"available_commands_update"| == 25;
  }

  function MessageId(n: Notification): string {
    TrimSpace(n.update.messageId)
  }

  function SdkId(session: string, gen: nat): string {
    "orphan:" + session + ":" + Decimal.ToDecimal(gen)
  }

  function TerminalOf(session: string, id: string): Notification {
    Notification(session, Update("", ""), id, true)
  }

  function Closed(o: Orphan): Orphan {
    Orphan(o.gen, "", "")
  }

  predicate Conflicts(o: Orphan, msg: string) {
    o.id != "" && msg != "" && o.message != "" && msg != o.message
  }

  function Opened(session: string, o: Orphan, msg: string): Orphan {
    if o.id == "" then Orphan(o.gen + 1, if msg != "" then msg else SdkId(session, o.gen + 1), msg)
    else if o.message == "" && msg != "" then o.(message := msg)
    else o
  }

  datatype Binding = Binding(after: Orphan, previous: seq<Notification>, bound: Notification)

  /** bindOrphanUpdate */
  function Bind(session: string, o: Orphan, n: Notification): Binding {
    if IsIdleKind(Kind(n)) then
      if o.id == "" then Binding(o, [], n)
      else Binding(Closed(o), [], n.(updateId := o.id, terminal := true))
    else if !IsBodyKind(Kind(n)) then Binding(o, [], n.(updateId := o.id))
    else
      var conflict := Conflicts(o, MessageId(n));
      var p := Opened(session, if conflict then Closed(o) else o, MessageId(n));
      Binding(p, if conflict then [TerminalOf(session, o.id)] else [], n.(updateId := p.id))
  }

  /** takeOrphanTerminalLocked */
  function TakeTerminal(session: string, o: Orphan): (Orphan, Option<Notification>) {
    if o.id == "" then (o, None) else (Closed(o), Some(TerminalOf(session, o.id)))
  }

  /** An update with no turn in flight, or a turn start or close. */
  datatype Event = Arrive(n: Notification) | Take

  function Step(session: string, o: Orphan, e: Event): Orphan {
    match e
    case Arrive(n) => Bind(session, o, n).after
    case Take => TakeTerminal(session, o).0
  }

  function Emit(session: string, o: Orphan, e: Event): seq<Notification> {
    match e
    case Arrive(n) =>
      var b := Bind(session, o, n);
      b.previous + [b.bound]
    case Take =>
      var terminal := TakeTerminal(session, o).1;
      if terminal.Some? then [terminal.value] else []
  }

  function After(session: string, o: Orphan, events: seq<Event>): Orphan {
    if events == [] then o
    else Step(session, After(session, o, events[..|events| - 1]), events[|events| - 1])
  }

  /** Everything sent on the updates channel, in the order it was bound. */
  function Output(session: string, o: Orphan, events: seq<Event>): seq<Notification> {
    if events == [] then []
    else
      var g := events[..|events| - 1];
      Output(session, o, g) + Emit(session, After(session, o, g), events[|events| - 1])
  }

  lemma {:induction false} OutputAppends(session: string, o: Orphan, a: seq<Event>, b: seq<Event>)
    ensures After(session, o, a + b) == After(session, After(session, o, a), b)
    ensures Output(session, o, a + b) == Output(session, o, a) + Output(session, After(session, o, a), b)
    decreases |b|
  {
    hide Step, Emit;
    if b == [] {
      assert a + b == a;
    } else {
      var c := b[..|b| - 1];
      assert (a + b)[..|a + b| - 1] == a + c;
      OutputAppends(session, o, a, c);
    }
  }

  // ---------- the batch definition ----------

  predicate IsBody(e: Event) {
    e.Arrive? && IsBodyKind(Kind(e.n)) && !IsIdleKind(Kind(e.n))
  }

  predicate IsIdle(e: Event) {
    e.Arrive? && IsIdleKind(Kind(e.n))
  }

  /** The message id of a stretch of events: the first one a body carries. */
  function MessageOf(events: seq<Event>): string {
    if events == [] then ""
    else
      var earlier := MessageOf(events[..|events| - 1]);
      var last := events[|events| - 1];
      if earlier == "" && IsBody(last) then MessageId(last.n) else earlier
  }

  /** Whether `e` ends the generation made of the events before it. */
  predicate Breaks(before: seq<Event>, e: Event) {
    || e.Take?
    || IsIdle(e)
    || (IsBody(e) && MessageId(e.n) != "" && MessageOf(before) != "" && MessageId(e.n) != MessageOf(before))
  }

  /** How many of the events the generation takes that the first of them opens. */
  function Extent(events: seq<Event>, from: nat): (n: nat)
    requires from <= |events|
    ensures from <= n <= |events|
    ensures forall j | from <= j < n :: !Breaks(events[..j], events[j])
    ensures n < |events| ==> Breaks(events[..n], events[n])
    decreases |events| - from
  {
    if from == |events| || Breaks(events[..from], events[from]) then from else Extent(events, from + 1)
  }

  datatype Group = Unbound(n: Notification) | Generation(number: nat, items: seq<Notification>)

  function IdOf(session: string, number: nat, first: Notification): string {
    if MessageId(first) != "" then MessageId(first) else SdkId(session, number)
  }

  function Bound(id: string, events: seq<Event>): (r: seq<Notification>)
    requires forall e | e in events :: e.Arrive?
    ensures |r| == |events| && forall i | 0 <= i < |r| :: r[i] == events[i].n.(updateId := id)
  {
    seq(|events|, i requires 0 <= i < |events| => events[i].n.(updateId := id))
  }

  /** What closes a generation, if anything follows it: the idle update itself, or a terminal of its own. */
  function Closer(session: string, id: string, rest: seq<Event>): seq<Notification> {
    if rest == [] then []
    else if IsIdle(rest[0]) then [rest[0].n.(updateId := id, terminal := true)]
    else [TerminalOf(session, id)]
  }

  lemma ExtentArrives(events: seq<Event>)
    requires events != [] && IsBody(events[0])
    ensures forall e | e in events[..Extent(events, 1)] :: e.Arrive? && !IsIdle(e)
  {
    var n := Extent(events, 1);
    forall j | 0 <= j < n ensures events[j].Arrive? && !IsIdle(events[j]) {
      if 0 < j { assert !Breaks(events[..j], events[j]); }
    }
  }

  function Rest(events: seq<Event>, n: nat): seq<Event>
    requires n <= |events|
  {
    if n < |events| && !IsBody(events[n]) then events[n + 1..] else events[n..]
  }

  /** The whole sequence of events grouped at once, with `number` generations before it. */
  function Batch(session: string, number: nat, events: seq<Event>): seq<Group>
    decreases |events|
  {
    if events == [] then []
    else if IsBody(events[0]) then
      var n := Extent(events, 1);
      ExtentArrives(events);
      var id := IdOf(session, number + 1, events[0].n);
      [Generation(number + 1, Bound(id, events[..n]) + Closer(session, id, events[n..]))]
      + Batch(session, number + 1, Rest(events, n))
    else if events[0].Take? then Batch(session, number, events[1..])
    else
      var n := events[0].n;
      [Unbound(if IsIdle(events[0]) then n else n.(updateId := ""))] + Batch(session, number, events[1..])
  }

  function Flatten(groups: seq<Group>): seq<Notification> {
    if groups == [] then []
    else (if groups[0].Unbound? then [groups[0].n] else groups[0].items) + Flatten(groups[1..])
  }

  // ---------- the automaton is the batch function ----------

  lemma FirstBody(session: string, gen: nat, e: Event)
    requires IsBody(e)
    ensures var o, id := Orphan(gen, "", ""), IdOf(session, gen + 1, e.n);
      && id != "" && Step(session, o, e) == Orphan(gen + 1, id, MessageId(e.n))
      && Emit(session, o, e) == [e.n.(updateId := id)] && MessageOf([e]) == MessageId(e.n)
  {
    hide TrimSpace;
    assert [e][..0] == [];
  }

  lemma LaterEvent(session: string, o: Orphan, before: seq<Event>, e: Event)
    requires o.id != "" && o.message == MessageOf(before) && !Breaks(before, e)
    ensures e.Arrive? && Step(session, o, e) == o.(message := MessageOf(before + [e]))
    ensures Emit(session, o, e) == [e.n.(updateId := o.id)]
  {
    hide TrimSpace;
    assert (before + [e])[..|before|] == before;
  }

  lemma {:induction false} InsideGeneration(session: string, gen: nat, events: seq<Event>, j: nat)
    requires events != [] && IsBody(events[0]) && 1 <= j <= Extent(events, 1)
    requires forall e | e in events[..j] :: e.Arrive? && !IsIdle(e)
    ensures var id := IdOf(session, gen + 1, events[0].n);
      && id != ""
      && After(session, Orphan(gen, "", ""), events[..j]) == Orphan(gen + 1, id, MessageOf(events[..j]))
      && Output(session, Orphan(gen, "", ""), events[..j]) == Bound(id, events[..j])
    decreases j
  {
    hide TrimSpace, Extent, Step, Emit, Breaks, IdOf, MessageOf, IsBody;
    var o := Orphan(gen, "", "");
    var g, last := events[..j - 1], events[j - 1];
    assert events[..j][..j - 1] == g && events[..j][j - 1] == last && events[..j] == g + [last];
    if j == 1 {
      assert g == [];
      FirstBody(session, gen, last);
    } else {
      assert last in events[..j];
      InsideGeneration(session, gen, events, j - 1);
      ExtentBreaks(events, j - 1);
      LaterEvent(session, After(session, o, g), g, last);
    }
  }

  lemma ExtentBreaks(events: seq<Event>, j: nat)
    requires events != [] && 1 <= j < Extent(events, 1)
    ensures !Breaks(events[..j], events[j])
  {
  }

  lemma ClosesGeneration(session: string, o: Orphan, before: seq<Event>, e: Event)
    requires o.id != "" && o.message == MessageOf(before) && Breaks(before, e)
    ensures !IsBody(e) ==> Step(session, o, e) == Closed(o) && Emit(session, o, e) == Closer(session, o.id, [e])
    ensures IsBody(e) ==> Step(session, o, e) == Step(session, Closed(o), e)
    ensures IsBody(e) ==> Emit(session, o, e) == [TerminalOf(session, o.id)] + Emit(session, Closed(o), e)
  {
    hide TrimSpace;
  }

  lemma OneEvent(session: string, o: Orphan, e: Event, rest: seq<Event>)
    ensures After(session, o, [e] + rest) == After(session, Step(session, o, e), rest)
    ensures Output(session, o, [e] + rest) == Emit(session, o, e) + Output(session, Step(session, o, e), rest)
  {
    hide Step, Emit;
    assert [e][..0] == [];
    OutputAppends(session, o, [e], rest);
  }

  lemma CloserOfHead(session: string, id: string, e: Event, rest: seq<Event>)
    ensures Closer(session, id, [e] + rest) == Closer(session, id, [e])
    ensures IsBody(e) ==> Closer(session, id, [e] + rest) == [TerminalOf(session, id)]
  {
    hide TrimSpace;
  }

  /** The output of the events from `n` on, once the first `n` are an open generation. */
  lemma AfterGeneration(session: string, gen: nat, events: seq<Event>, n: nat, id: string)
    requires n <= |events| && id != "" && (n < |events| ==> Breaks(events[..n], events[n]))
    ensures var o := Orphan(gen + 1, id, MessageOf(events[..n]));
      Output(session, o, events[n..])
      == Closer(session, id, events[n..]) + Output(session, Orphan(gen + 1, "", ""), Rest(events, n))
  {
    hide TrimSpace, Step, Emit, Output, Breaks, MessageOf, Closer, IsBody;
    var o := Orphan(gen + 1, id, MessageOf(events[..n]));
    if n == |events| {
      EmptyOutput(session, o);
      EmptyOutput(session, Orphan(gen + 1, "", ""));
      NoCloser(session, id, events[n..]);
    } else {
      var e, rest := events[n], events[n + 1..];
      assert events[n..] == [e] + rest;
      OneEvent(session, o, e, rest);
      ClosesGeneration(session, o, events[..n], e);
      OneEvent(session, Closed(o), e, rest);
      CloserOfHead(session, id, e, rest);
      assert Rest(events, n) == if IsBody(e) then [e] + rest else rest;
    }
  }

  lemma EmptyOutput(session: string, o: Orphan)
    ensures Output(session, o, []) == []
  {
  }

  lemma OutsideGeneration(session: string, gen: nat, e: Event)
    requires !IsBody(e)
    ensures var o := Orphan(gen, "", "");
      && Step(session, o, e) == o
      && Emit(session, o, e) == if e.Take? then [] else [if IsIdle(e) then e.n else e.n.(updateId := "")]
  {
    hide TrimSpace;
  }

  /** For every sequence of events the automaton emits exactly what the batch function groups. */
  lemma {:induction false} AutomatonIsBatch(session: string, gen: nat, events: seq<Event>)
    ensures Output(session, Orphan(gen, "", ""), events) == Flatten(Batch(session, gen, events))
    decreases |events|
  {
    hide TrimSpace, Step, Emit, Output, Extent, Closer, IdOf;
    var o := Orphan(gen, "", "");
    if events == [] {
      EmptyOutput(session, o);
    } else if IsBody(events[0]) {
      var n := Extent(events, 1);
      ExtentArrives(events);
      InsideGeneration(session, gen, events, n);
      assert events == events[..n] + events[n..];
      OutputAppends(session, o, events[..n], events[n..]);
      var id := IdOf(session, gen + 1, events[0].n);
      AfterGeneration(session, gen, events, n, id);
      AutomatonIsBatch(session, gen + 1, Rest(events, n));
    } else {
      assert events == [events[0]] + events[1..];
      OneEvent(session, o, events[0], events[1..]);
      OutsideGeneration(session, gen, events[0]);
      AutomatonIsBatch(session, gen, events[1..]);
    }
  }

  // ---------- the bracketing of the output ----------

  predicate SameMessage(a: Notification, b: Notification) {
    MessageId(a) == "" || MessageId(b) == "" || MessageId(a) == MessageId(b)
  }

  predicate IsBodyItem(n: Notification) {
    !n.terminal && IsBodyKind(Kind(n)) && !IsIdleKind(Kind(n))
  }

  /** A generation is named by its first message id, or by the driver. */
  predicate IsNamed(session: string, number: nat, first: Notification) {
    var id := TrimSpace(first.update.messageId);
    first.updateId == if id != "" then id else "orphan:" + session + ":" + Decimal.ToDecimal(number)
  }

  lemma NamedByIdOf(session: string, number: nat, first: Notification)
    ensures first.updateId == IdOf(session, number, first) <==> IsNamed(session, number, first)
  {
  }

  /** The idle update itself closes a generation, or an empty update marked terminal. */
  predicate Closes(session: string, id: string, last: Notification) {
    TrimSpace(last.update.kind) == "available_commands_update" || last == Notification(session, Update("", ""), id, true)
  }

  /** A body, then bodies and metadata with the same id, then the terminal if the generation is closed. */
  ghost predicate IsGeneration(session: string, g: Group, closed: bool) {
    && g.Generation?
    && |g.items| >= (if closed then 2 else 1)
    && IsBodyItem(g.items[0])
    && g.items[0].updateId != "" && IsNamed(session, g.number, g.items[0])
    && (forall i | 0 <= i < |g.items| :: g.items[i].updateId == g.items[0].updateId)
    && (forall i | 0 <= i < |g.items| :: g.items[i].terminal <==> closed && i == |g.items| - 1)
    && (forall i | 0 <= i < |g.items| :: !g.items[i].terminal ==> !IsIdleKind(Kind(g.items[i])))
    && (closed ==> Closes(session, g.items[0].updateId, g.items[|g.items| - 1]))
    && (forall i, j | 0 <= i < j < |g.items| ::
          IsBodyItem(g.items[i]) && IsBodyItem(g.items[j]) ==> SameMessage(g.items[i], g.items[j]))
  }

  predicate IsUnbound(g: Group) {
    g.Unbound? && g.n.updateId == "" && !g.n.terminal && !IsBodyItem(g.n)
  }

  ghost predicate Bracketed(session: string, groups: seq<Group>) {
    && (forall k | 0 <= k < |groups| ::
          IsUnbound(groups[k]) || IsGeneration(session, groups[k], true)
          || (k == |groups| - 1 && IsGeneration(session, groups[k], false)))
    && (forall i, j | 0 <= i < j < |groups| && groups[i].Generation? && groups[j].Generation? ::
          groups[i].number < groups[j].number)
  }

  /** Incoming notifications carry neither an update id nor a terminal mark. */
  predicate Clean(events: seq<Event>) {
    forall e | e in events && e.Arrive? :: e.n.updateId == "" && !e.n.terminal
  }

  lemma {:induction false} OneMessage(events: seq<Event>, i: nat)
    requires i < |events| && IsBody(events[i]) && MessageId(events[i].n) != ""
    requires forall j | 0 < j < |events| :: !Breaks(events[..j], events[j])
    ensures MessageOf(events) == MessageId(events[i].n)
  {
    hide TrimSpace;
    var n := |events| - 1;
    forall j | 0 < j < n ensures !Breaks(events[..n][..j], events[..n][j]) {
      assert events[..n][..j] == events[..j];
    }
    if i < n {
      OneMessage(events[..n], i);
      assert !Breaks(events[..n], events[n]);
    } else if 0 < n {
      assert !Breaks(events[..n], events[n]);
    }
  }

  lemma BoundItems(id: string, events: seq<Event>, n: nat)
    requires n <= |events| && Clean(events) && forall e | e in events[..n] :: e.Arrive? && !IsIdle(e)
    ensures var items := Bound(id, events[..n]);
      forall i | 0 <= i < n :: items[i].updateId == id && !items[i].terminal && !IsIdleKind(Kind(items[i]))
        && (IsBodyItem(items[i]) <==> IsBody(events[i])) && MessageId(items[i]) == MessageId(events[i].n)
  {
    hide TrimSpace;
    assert forall i | 0 <= i < n :: events[i] in events[..n] && events[i] in events;
  }

  lemma CloserItem(session: string, id: string, rest: seq<Event>)
    requires rest != []
    ensures var items := Closer(session, id, rest); |items| == 1 && items[0].updateId == id && items[0].terminal
    ensures Closes(session, id, Closer(session, id, rest)[0])
  {
    hide TrimSpace;
    if rest[0].Arrive? { TrimIsIdempotent(rest[0].n.update.kind); }
  }

  /** A generation from its parts: the items bound to it and what closes it. */
  lemma FormsGeneration(session: string, number: nat, items: seq<Notification>, closer: seq<Notification>)
    requires items != [] && IsBodyItem(items[0]) && |closer| <= 1
    requires items[0].updateId == IdOf(session, number, items[0]) != ""
    requires forall i | 0 <= i < |items| ::
      items[i].updateId == items[0].updateId && !items[i].terminal && !IsIdleKind(Kind(items[i]))
    requires closer != [] ==> closer[0].updateId == items[0].updateId && closer[0].terminal
    requires closer != [] ==> Closes(session, items[0].updateId, closer[0])
    requires forall i, j | 0 <= i < j < |items| && IsBodyItem(items[i]) && IsBodyItem(items[j]) ::
      SameMessage(items[i], items[j])
    ensures IsGeneration(session, Generation(number, items + closer), closer != [])
  {
    hide Kind, MessageId, IsBodyKind, IsIdleKind, IdOf, SameMessage, IsNamed, Closes;
    NamedByIdOf(session, number, items[0]);
  }

  lemma BoundMessages(id: string, events: seq<Event>, i: nat, j: nat)
    requires events != [] && Clean(events) && i < j < Extent(events, 1)
    requires forall e | e in events[..Extent(events, 1)] :: e.Arrive? && !IsIdle(e)
    ensures var items := Bound(id, events[..Extent(events, 1)]);
      IsBodyItem(items[i]) && IsBodyItem(items[j]) ==> SameMessage(items[i], items[j])
  {
    hide TrimSpace, Extent, Breaks, MessageOf;
    var n := Extent(events, 1);
    assert events[i] in events[..n] && events[j] in events[..n];
    if IsBody(events[i]) { OneMessageEach(events, n, i); }
    if IsBody(events[j]) { OneMessageEach(events, n, j); }
  }

  lemma GenerationIsWellFormed(session: string, number: nat, events: seq<Event>)
    requires events != [] && IsBody(events[0]) && Clean(events)
    requires forall e | e in events[..Extent(events, 1)] :: e.Arrive? && !IsIdle(e)
    ensures var n, id := Extent(events, 1), IdOf(session, number, events[0].n);
      IsGeneration(session, Generation(number, Bound(id, events[..n]) + Closer(session, id, events[n..])), n < |events|)
  {
    hide TrimSpace, Extent, SdkId, Closer, Breaks, MessageOf, IsGeneration, SameMessage, IsBodyItem, IsBody, Closes;
    var n, id := Extent(events, 1), IdOf(session, number, events[0].n);
    var items, closer := Bound(id, events[..n]), Closer(session, id, events[n..]);
    IdIsNotEmpty(session, number, events[0].n);
    BoundItems(id, events, n);
    if n < |events| { CloserItem(session, id, events[n..]); } else { NoCloser(session, id, events[n..]); }
    forall i, j | 0 <= i < j < |items| && IsBodyItem(items[i]) && IsBodyItem(items[j])
      ensures SameMessage(items[i], items[j])
    {
      BoundMessages(id, events, i, j);
    }
    assert items[0].updateId == IdOf(session, number, items[0]);
    FormsGeneration(session, number, items, closer);
  }

  lemma NoCloser(session: string, id: string, rest: seq<Event>)
    requires rest == []
    ensures Closer(session, id, rest) == []
  {
  }

  lemma IdIsNotEmpty(session: string, number: nat, n: Notification)
    ensures IdOf(session, number, n) != ""
  {
  }

  lemma OneMessageEach(events: seq<Event>, n: nat, i: nat)
    requires events != [] && n == Extent(events, 1) && i < n && IsBody(events[i])
    ensures MessageId(events[i].n) == "" || MessageId(events[i].n) == MessageOf(events[..n])
  {
    if MessageId(events[i].n) != "" {
      forall j | 0 < j < n ensures !Breaks(events[..n][..j], events[..n][j]) {
        assert events[..n][..j] == events[..j];
      }
      OneMessage(events[..n], i);
    }
  }

  lemma Prepend(session: string, first: Group, groups: seq<Group>)
    requires Bracketed(session, groups)
    requires IsUnbound(first) || IsGeneration(session, first, true) || (groups == [] && IsGeneration(session, first, false))
    requires first.Generation? ==> forall g | g in groups && g.Generation? :: first.number < g.number
    ensures Bracketed(session, [first] + groups)
  {
    hide IsUnbound, IsGeneration;
    var all := [first] + groups;
    assert forall k | 1 <= k < |all| :: all[k] == groups[k - 1];
  }

  lemma {:induction false} BatchIsBracketed(session: string, number: nat, events: seq<Event>)
    requires Clean(events)
    ensures Bracketed(session, Batch(session, number, events))
    ensures forall g | g in Batch(session, number, events) && g.Generation? :: g.number > number
    decreases |events|
  {
    hide TrimSpace, Extent, SdkId, IsGeneration, Closer, Bracketed;
    if events == [] {
      NoGroups(session);
    } else if IsBody(events[0]) {
      var n := Extent(events, 1);
      ExtentArrives(events);
      GenerationIsWellFormed(session, number + 1, events);
      var rest := Batch(session, number + 1, Rest(events, n));
      BatchIsBracketed(session, number + 1, Rest(events, n));
      if n == |events| { assert rest == []; }
      var id := IdOf(session, number + 1, events[0].n);
      Prepend(session, Generation(number + 1, Bound(id, events[..n]) + Closer(session, id, events[n..])), rest);
    } else {
      BatchIsBracketed(session, number, events[1..]);
      assert events[0] in events;
      if events[0].Arrive? {
        var n := events[0].n;
        Prepend(session, Unbound(if IsIdle(events[0]) then n else n.(updateId := "")), Batch(session, number, events[1..]));
      }
    }
  }

  lemma NoGroups(session: string)
    ensures Bracketed(session, [])
  {
  }

  /**
   Over any interleaving of updates without a turn, turn starts and closes, the notifications in bind order are
   unbound metadata and generations: each generation opens with a body, keeps one id and one message id, and
   ends in exactly one terminal, unless it is the last and still open.
   */
  lemma BindOrderIsBracketed(session: string, events: seq<Event>)
    requires Clean(events)
    ensures exists groups :: Output(session, NO_ORPHAN, events) == Flatten(groups) && Bracketed(session, groups)
  {
    hide Batch, Output, Bracketed, Flatten;
    AutomatonIsBatch(session, 0, events);
    BatchIsBracketed(session, 0, events);
    var groups := Batch(session, 0, events);
    assert Output(session, NO_ORPHAN, events) == Flatten(groups);
  }

  lemma SdkIdInjective(session: string, a: nat, b: nat)
    requires SdkId(session, a) == SdkId(session, b)
    ensures a == b
  {
    var s, t := Decimal.ToDecimal(a), Decimal.ToDecimal(b);
    var prefix := "orphan:" + session + ":";
    assert SdkId(session, a) == prefix + s && SdkId(session, b) == prefix + t;
    assert s == (prefix + s)[|prefix|..] && t == (prefix + t)[|prefix|..];
    Decimal.DecimalInjective(a, b);
  }

  /** The ids that the driver assigns itself never repeat. */
  lemma SdkIdsAreDistinct(session: string, groups: seq<Group>, i: nat, j: nat)
    requires Bracketed(session, groups) && i < j < |groups| && groups[i].Generation? && groups[j].Generation?
    requires groups[i].items != [] && groups[j].items != []
    requires MessageId(groups[i].items[0]) == "" && MessageId(groups[j].items[0]) == ""
    ensures groups[i].items[0].updateId != groups[j].items[0].updateId
  {
    hide TrimSpace, SdkId, IsNamed;
    NamedByIdOf(session, groups[i].number, groups[i].items[0]);
    NamedByIdOf(session, groups[j].number, groups[j].items[0]);
    assert IsGeneration(session, groups[i], true);
    assert IsGeneration(session, groups[j], true) || IsGeneration(session, groups[j], false);
    var a, b := groups[i].number, groups[j].number;
    if SdkId(session, a) == SdkId(session, b) {
      SdkIdInjective(session, a, b);
    }
  }
}
