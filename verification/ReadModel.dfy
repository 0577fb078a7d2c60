/**
 The bounded read model of the session driver: the thread as a sliding window over everything ever appended,
 and tool calls with their operations, two maps that are updated and pruned together.
 */
module ReadModel {
  import opened Options

  const DEFAULT_THREAD_ENTRIES := 256
  const DEFAULT_TOOL_CALLS := 128

  /** A limit of zero means the default, a negative one no limit. */
  function Limit(max: int, default: nat): int {
    if max == 0 then default else max
  }

  // ---------- the thread window ----------

  /** The last `cap` entries; all of them when there are no more, or when `cap` is negative. */
  function Window<T>(cap: int, history: seq<T>): seq<T> {
    if cap < 0 || |history| <= cap then history else history[|history| - cap..]
  }

  /** Appending to the window and cutting it again loses nothing that the window of the full history has. */
  lemma WindowSlides<T>(cap: int, history: seq<T>, more: seq<T>)
    ensures Window(cap, Window(cap, history) + more) == Window(cap, history + more)
  {
    var w := Window(cap, history);
    if 0 <= cap < |history| {
      var all, short := history + more, w + more;
      assert |short| == cap + |more| && |all| == |history| + |more|;
      assert all[|all| - |short|..] == short;
      assert short[|short| - cap..] == all[|all| - cap..];
    }
  }

  /** Append and prune, one entry at a time. */
  function Kept<T>(cap: int, entries: seq<T>): seq<T> {
    if entries == [] then []
    else Window(cap, Kept(cap, entries[..|entries| - 1]) + [entries[|entries| - 1]])
  }

  lemma {:induction false} KeptIsWindow<T>(cap: int, entries: seq<T>)
    ensures Kept(cap, entries) == Window(cap, entries)
  {
    if entries == [] {
    } else {
      var g, e := entries[..|entries| - 1], entries[|entries| - 1];
      KeptIsWindow(cap, g);
      WindowSlides(cap, g, [e]);
      assert g + [e] == entries;
    }
  }

  /** Append and prune leave the last `cap` entries of everything appended, and all without a cap. */
  lemma KeptIsTheEnd<T>(cap: int, entries: seq<T>)
    ensures var n := |Kept(cap, entries)|;
      && n == (if 0 <= cap < |entries| then cap else |entries|)
      && Kept(cap, entries) == entries[|entries| - n..]
  {
    KeptIsWindow(cap, entries);
    if cap < 0 || |entries| <= cap { assert entries[0..] == entries; }
  }

  /** pruneThreadLocked: the trailing window is copied down over its own array, then the slice is cut. */
  method PruneThread<T>(thread: array<T>, len: nat, maxThread: int) returns (kept: nat)
    requires len <= thread.Length
    modifies thread
    ensures kept <= len && thread[..kept] == Window(Limit(maxThread, DEFAULT_THREAD_ENTRIES), old(thread[..len]))
    ensures kept == if maxThread == 0 then (if len < 256 then len else 256) else if 0 < maxThread < len then maxThread else len
    ensures thread[..kept] == old(thread[len - kept..len]) && thread[len..] == old(thread[len..])
  {
    var max := maxThread;
    if max == 0 {
      max := DEFAULT_THREAD_ENTRIES;
    }
    if max < 0 || len <= max {
      return len;
    }
    var drop := len - max;
    for i := 0 to max
      invariant forall j | 0 <= j < i :: thread[j] == old(thread[j + drop])
      invariant forall j | i <= j < thread.Length :: thread[j] == old(thread[j])
    {
      thread[i] := thread[i + drop];
    }
    kept := max;
    ghost var was := old(thread[..len]);
    forall j | 0 <= j < kept ensures thread[j] == was[drop + j] {}
    assert thread[..kept] == was[drop..];
  }

  // ---------- tool calls and operations ----------

  datatype Block = TextBlock(text: string) | OtherBlock(kind: string)

  datatype ToolCall = ToolCall(
    id: string, title: string, kind: string, status: string, content: Option<seq<Block>>, rawInput: string, rawOutput: string)

  datatype Operation = Operation(id: string, kind: string, phase: string, title: string, target: string)

  const NO_CALL := ToolCall("", "", "", "", None, "", "")
  const NO_OPERATION := Operation("", "", "", "", "")

  /** A tool_call or tool_call_update; `operationKind` and `target` are what the profile and the payload give. */
  datatype ToolUpdate = ToolUpdate(
    id: string, title: Option<string>, kind: Option<string>, status: Option<string>, content: Option<seq<Block>>,
    rawInput: string, rawOutput: string, operationKind: string, target: string)

  datatype Tools = Tools(calls: map<string, ToolCall>, operations: map<string, Operation>)

  const NO_TOOLS := Tools(map[], map[])

  function OperationPhase(status: string): string {
    match status
    case "completed" => "completed"
    case "failed" => "failed"
    case "pending" => "proposed"
    case _ => "running"
  }

  function OrEmpty(s: Option<string>): string {
    if s.Some? then s.value else ""
  }

  predicate Finished(c: ToolCall) {
    c.status == "completed" || c.status == "failed"
  }

  /** A tool_call replaces both entries. */
  function Created(u: ToolUpdate): (ToolCall, Operation) {
    var call := ToolCall(u.id, OrEmpty(u.title), OrEmpty(u.kind), OrEmpty(u.status), u.content, u.rawInput, u.rawOutput);
    (call, Operation(u.id, u.operationKind, OperationPhase(call.status), call.title, u.target))
  }

  /** A tool_call_update overlays the fields it carries; an unknown call starts from empty fields, id included. */
  function Overlaid(c: ToolCall, u: ToolUpdate): ToolCall {
    ToolCall(
      c.id,
      if u.title.Some? then u.title.value else c.title,
      if u.kind.Some? then u.kind.value else c.kind,
      if u.status.Some? then u.status.value else c.status,
      if u.content.Some? then u.content else c.content,
      if u.rawInput != "" then u.rawInput else c.rawInput,
      if u.rawOutput != "" then u.rawOutput else c.rawOutput)
  }

  function CallOf(m: Tools, id: string): ToolCall {
    if id in m.calls then m.calls[id] else NO_CALL
  }

  function OperationOf(m: Tools, id: string): Operation {
    if id in m.operations then m.operations[id] else NO_OPERATION
  }

  datatype ToolEvent = Call(u: ToolUpdate) | CallUpdate(u: ToolUpdate)

  /** Both maps before pruning. */
  function Stored(m: Tools, e: ToolEvent): Tools {
    match e
    case Call(u) =>
      var (call, operation) := Created(u);
      Tools(m.calls[u.id := call], m.operations[u.id := operation])
    case CallUpdate(u) =>
      var call := Overlaid(CallOf(m, u.id), u);
      Tools(m.calls[u.id := call], m.operations[u.id := OperationOf(m, u.id).(phase := OperationPhase(call.status))])
  }

  /** `after` is part of `before`, in both maps alike. */
  predicate Within(after: Tools, before: Tools) {
    && after.calls.Keys <= before.calls.Keys
    && after.operations.Keys == before.operations.Keys - (before.calls.Keys - after.calls.Keys)
    && (forall k | k in after.calls :: after.calls[k] == before.calls[k])
    && (forall k | k in after.operations :: after.operations[k] == before.operations[k])
  }

  /** An unfinished call is dropped only if no finished one is left. */
  predicate FinishedFirst(before: Tools, after: Tools) {
    forall k, j | k in before.calls && k !in after.calls && j in after.calls ::
      Finished(before.calls[k]) || !Finished(after.calls[j])
  }

  /** What pruning to `max` may leave: with Go's random map order this is all that is determined. */
  predicate PrunedTo(before: Tools, max: int, after: Tools) {
    && Within(after, before)
    && FinishedFirst(before, after)
    && |after.calls| == if 0 <= max < |before.calls| then max else |before.calls|
  }

  /** No call was dropped that is still under way while one is kept that is over. */
  predicate DropsFinishedFirst(before: Tools, after: Tools) {
    forall k, j | k in before.calls && k !in after.calls && j in after.calls ::
      var gone, kept := before.calls[k].status, after.calls[j].status;
      gone == "completed" || gone == "failed" || (kept != "completed" && kept != "failed")
  }

  lemma PrunedDropsFinishedFirst(before: Tools, max: int, after: Tools)
    requires PrunedTo(before, max, after)
    ensures DropsFinishedFirst(before, after)
  {
  }

  predicate ToolStep(before: Tools, e: ToolEvent, max: int, after: Tools) {
    if e.u.id == "" then after == before
    else PrunedTo(Stored(before, e), Limit(max, DEFAULT_TOOL_CALLS), after)
  }

  /** The two maps have the same keys and every operation shows the phase of its call's status. */
  predicate Agree(m: Tools) {
    && m.calls.Keys == m.operations.Keys
    && forall k | k in m.calls :: m.operations[k].phase == OperationPhase(m.calls[k].status)
  }

  predicate WithinCap(m: Tools, max: int) {
    var cap := Limit(max, DEFAULT_TOOL_CALLS);
    cap < 0 || |m.calls| <= cap
  }

  lemma EntryAgrees(m: Tools, e: ToolEvent)
    requires Agree(m)
    ensures var s := Stored(m, e);
      && s.calls.Keys == m.calls.Keys + {e.u.id} == s.operations.Keys
      && s.operations[e.u.id].phase == OperationPhase(s.calls[e.u.id].status)
      && forall k | k in m.calls && k != e.u.id :: s.calls[k] == m.calls[k] && s.operations[k] == m.operations[k]
  {
    hide OperationPhase, Overlaid;
  }

  lemma StoredAgrees(m: Tools, e: ToolEvent)
    requires Agree(m)
    ensures Agree(Stored(m, e))
    ensures |Stored(m, e).calls| <= |m.calls| + 1
  {
    hide OperationPhase, Stored;
    var s := Stored(m, e);
    EntryAgrees(m, e);
    assert |s.calls| == |s.calls.Keys| && |m.calls| == |m.calls.Keys|;
  }

  lemma WithinAgrees(before: Tools, after: Tools)
    requires Agree(before) && Within(after, before)
    ensures Agree(after)
  {
    hide OperationPhase;
    assert after.calls.Keys == after.operations.Keys;
    forall k | k in after.calls ensures after.operations[k].phase == OperationPhase(after.calls[k].status) {
      assert k in after.operations && k in before.calls;
    }
  }

  lemma ToolStepKeepsAgreement(before: Tools, e: ToolEvent, max: int, after: Tools)
    requires Agree(before) && WithinCap(before, max) && ToolStep(before, e, max, after)
    ensures Agree(after) && WithinCap(after, max)
  {
    hide OperationPhase, Agree, Within, FinishedFirst, Stored;
    if e.u.id != "" {
      StoredAgrees(before, e);
      WithinAgrees(Stored(before, e), after);
    }
  }

  /** A run of tool events: some choice of map order at every step. */
  predicate IsToolRun(states: seq<Tools>, events: seq<ToolEvent>, max: int) {
    && |states| == |events| + 1
    && states[0] == NO_TOOLS
    && forall i | 0 <= i < |events| :: ToolStep(states[i], events[i], max, states[i + 1])
  }

  /**
   In every run, whatever order the maps are iterated in: both maps have the same keys, phases follow statuses, and
   after every update the calls are within their cap.
   */
  lemma {:induction false} ToolsAlwaysAgree(states: seq<Tools>, events: seq<ToolEvent>, max: int, i: nat)
    requires IsToolRun(states, events, max) && i < |states|
    ensures Agree(states[i]) && WithinCap(states[i], max)
    ensures max >= 0 ==> |states[i].calls| <= if max == 0 then 128 else max
  {
    if i == 0 {
    } else {
      ToolsAlwaysAgree(states, events, max, i - 1);
      ToolStepKeepsAgreement(states[i - 1], events[i - 1], max, states[i]);
    }
  }

  /** What the updates of `k` alone amount to: the last tool_call, overlaid by the later updates. */
  function Shown(events: seq<ToolEvent>, k: string): (ToolCall, Operation) {
    if events == [] then (NO_CALL, NO_OPERATION)
    else
      var (call, operation) := Shown(events[..|events| - 1], k);
      match events[|events| - 1]
      case Call(u) => if u.id == k then Created(u) else (call, operation)
      case CallUpdate(u) =>
        if u.id != k then (call, operation)
        else (Overlaid(call, u), operation.(phase := OperationPhase(Overlaid(call, u).status)))
  }

  /** Call `k` entered the map after the first `s` events and stayed until `i` of them had come. */
  predicate ListedSince(states: seq<Tools>, k: string, s: nat, i: nat)
    requires s <= i < |states|
  {
    k !in states[s].calls && forall j | s < j <= i :: k in states[j].calls
  }

  predicate ShowsSince(states: seq<Tools>, events: seq<ToolEvent>, k: string, s: nat, i: nat)
    requires s <= i <= |events| && i < |states|
  {
    && ListedSince(states, k, s, i) && k in states[i].calls && k in states[i].operations
    && (states[i].calls[k], states[i].operations[k]) == Shown(events[s..i], k)
  }

  /**
   In every run and for every map order, a listed call and its operation show exactly the updates of their own id
   since the call was last missing from the map: no other call's updates, and nothing from before it was dropped.
   */
  lemma {:induction false} ListedCallShowsItsUpdates(
      states: seq<Tools>, events: seq<ToolEvent>, max: int, k: string, i: nat)
    requires IsToolRun(states, events, max) && i < |states| && k in states[i].calls
    ensures k != "" && exists s: nat :: s <= i && ShowsSince(states, events, k, s, i)
  {
    hide OperationPhase, Overlaid, Created, Shown, Stored, PrunedTo;
    assert i > 0;
    var before, e := states[i - 1], events[i - 1];
    ToolsAlwaysAgree(states, events, max, i - 1);
    var s: nat := i - 1;
    if k in before.calls {
      ListedCallShowsItsUpdates(states, events, max, k, i - 1);
      s :| s <= i - 1 && ShowsSince(states, events, k, s, i - 1);
    } else {
      NothingShown(k);
      OnlyTheUpdatedIsNew(before, e, max, states[i], k);
    }
    assert events[s..i] == events[s..i - 1] + [e];
    ShownStep(before, e, max, states[i], events[s..i - 1], k);
    assert ShowsSince(states, events, k, s, i);
  }

  lemma NothingShown(k: string)
    ensures Shown([], k) == (NO_CALL, NO_OPERATION)
  {
  }

  lemma OnlyTheUpdatedIsNew(before: Tools, e: ToolEvent, max: int, after: Tools, k: string)
    requires ToolStep(before, e, max, after) && k in after.calls && k !in before.calls
    ensures k == e.u.id != ""
  {
  }

  lemma ShownStep(before: Tools, e: ToolEvent, max: int, after: Tools, events: seq<ToolEvent>, k: string)
    requires ToolStep(before, e, max, after) && Agree(before) && k in after.calls && k != ""
    requires (CallOf(before, k), OperationOf(before, k)) == Shown(events, k)
    ensures k in after.operations && (after.calls[k], after.operations[k]) == Shown(events + [e], k)
  {
    hide OperationPhase, Overlaid, Created;
    assert (events + [e])[..|events|] == events;
  }

  // ---------- field by field ----------

  datatype Field = Title | Kind | Status | Content | RawInput | RawOutput

  datatype FieldValue = Word(text: string) | Blocks(blocks: Option<seq<Block>>)

  function FieldOf(c: ToolCall, f: Field): FieldValue {
    match f
    case Title => Word(c.title)
    case Kind => Word(c.kind)
    case Status => Word(c.status)
    case Content => Blocks(c.content)
    case RawInput => Word(c.rawInput)
    case RawOutput => Word(c.rawOutput)
  }

  function Nothing(f: Field): FieldValue {
    if f.Content? then Blocks(None) else Word("")
  }

  /** What an update carries for a field: a missing pointer, slice or payload carries nothing. */
  function Carried(u: ToolUpdate, f: Field): Option<FieldValue> {
    match f
    case Title => if u.title.Some? then Some(Word(u.title.value)) else None
    case Kind => if u.kind.Some? then Some(Word(u.kind.value)) else None
    case Status => if u.status.Some? then Some(Word(u.status.value)) else None
    case Content => if u.content.Some? then Some(Blocks(u.content)) else None
    case RawInput => if u.rawInput != "" then Some(Word(u.rawInput)) else None
    case RawOutput => if u.rawOutput != "" then Some(Word(u.rawOutput)) else None
  }

  /** A tool_call sets every field, to nothing where it carries none; a tool_call_update sets those it carries. */
  predicate Sets(e: ToolEvent, k: string, f: Field) {
    e.u.id == k && (e.Call? || Carried(e.u, f).Some?)
  }

  /** `value` is what the last event says that sets the field of call `k`. */
  ghost predicate IsLast(events: seq<ToolEvent>, k: string, f: Field, value: FieldValue) {
    || (exists j :: LastAt(events, k, f, j) && value == SetTo(events[j], f))
    || (value == Nothing(f) && forall j | 0 <= j < |events| :: !Sets(events[j], k, f))
  }

  function SetTo(e: ToolEvent, f: Field): FieldValue {
    if Carried(e.u, f).Some? then Carried(e.u, f).value else Nothing(f)
  }

  ghost predicate LastAt(events: seq<ToolEvent>, k: string, f: Field, j: int) {
    0 <= j < |events| && Sets(events[j], k, f) && forall m | j < m < |events| :: !Sets(events[m], k, f)
  }

  lemma LastGrows(events: seq<ToolEvent>, e: ToolEvent, k: string, f: Field, value: FieldValue, next: FieldValue)
    requires IsLast(events, k, f, value) && next == if Sets(e, k, f) then SetTo(e, f) else value
    ensures IsLast(events + [e], k, f, next)
  {
    hide Sets, SetTo;
    var all := events + [e];
    assert forall j | 0 <= j < |events| :: all[j] == events[j];
    if Sets(e, k, f) {
      assert LastAt(all, k, f, |events|);
    } else if j :| LastAt(events, k, f, j) && value == SetTo(events[j], f) {
      assert LastAt(all, k, f, j);
    }
  }

  lemma {:induction false} ShownIsLast(events: seq<ToolEvent>, k: string, f: Field)
    ensures IsLast(events, k, f, FieldOf(Shown(events, k).0, f))
    decreases |events|
  {
    hide IsLast;
    if events == [] {
      NothingIsSet(k, f);
    } else {
      var some, e := events[..|events| - 1], events[|events| - 1];
      assert events == some + [e];
      ShownIsLast(some, k, f);
      LastGrows(some, e, k, f, FieldOf(Shown(some, k).0, f), FieldOf(Shown(events, k).0, f));
    }
  }

  lemma NothingIsSet(k: string, f: Field)
    ensures IsLast([], k, f, Nothing(f))
  {
  }

  /** The last tool_call of `k`, if there is one, gave the call its id and the operation all but its phase. */
  ghost predicate IsCreation(events: seq<ToolEvent>, k: string, c: ToolCall, o: Operation) {
    || (exists j :: CreatedAt(events, k, j) && c.id == k && o.id == k && o.kind == events[j].u.operationKind
          && o.title == (if events[j].u.title.Some? then events[j].u.title.value else "") && o.target == events[j].u.target)
    || ((forall j | 0 <= j < |events| :: !IsCallOf(events[j], k)) && c.id == o.id == o.kind == o.title == o.target == "")
  }

  predicate IsCallOf(e: ToolEvent, k: string) {
    e.Call? && e.u.id == k
  }

  ghost predicate CreatedAt(events: seq<ToolEvent>, k: string, j: int) {
    0 <= j < |events| && IsCallOf(events[j], k) && forall m | j < m < |events| :: !IsCallOf(events[m], k)
  }

  lemma {:induction false} ShownIsCreation(events: seq<ToolEvent>, k: string)
    ensures IsCreation(events, k, Shown(events, k).0, Shown(events, k).1)
    decreases |events|
  {
    hide OperationPhase;
    if events != [] {
      var some, e := events[..|events| - 1], events[|events| - 1];
      assert events == some + [e];
      assert forall j | 0 <= j < |some| :: events[j] == some[j];
      ShownIsCreation(some, k);
      if IsCallOf(e, k) {
        assert CreatedAt(events, k, |some|);
      } else if j :| CreatedAt(some, k, j) && Shown(some, k).0.id == k {
        assert CreatedAt(events, k, j);
      }
    }
  }

  /** The fields of call `k` and of its operation are what the events since index `s` set last. */
  ghost predicate ShowsLast(states: seq<Tools>, events: seq<ToolEvent>, k: string, s: nat, i: nat)
    requires s <= i <= |events| && i < |states|
  {
    && ListedSince(states, k, s, i) && k in states[i].calls && k in states[i].operations
    && (forall f :: IsLast(events[s..i], k, f, FieldOf(states[i].calls[k], f)))
    && IsCreation(events[s..i], k, states[i].calls[k], states[i].operations[k])
  }

  /**
   In every run and for every map order, each field of a listed call is what was said by the last event of its id, since
   the call was last missing, that sets the field; the operation is that of the last tool_call, in the phase of
   the call's status.
   */
  lemma ListedFieldsAreTheLast(states: seq<Tools>, events: seq<ToolEvent>, max: int, k: string, i: nat)
    requires IsToolRun(states, events, max) && i < |states| && k in states[i].calls
    ensures exists s: nat :: s <= i && ShowsLast(states, events, k, s, i)
    ensures k in states[i].operations && states[i].operations[k].phase ==
      match states[i].calls[k].status
      case "completed" => "completed"
      case "failed" => "failed"
      case "pending" => "proposed"
      case _ => "running"
  {
    hide IsLast, FieldOf, Shown, ListedSince, IsCreation;
    ListedCallShowsItsUpdates(states, events, max, k, i);
    var s: nat :| s <= i && ShowsSince(states, events, k, s, i);
    forall f ensures IsLast(events[s..i], k, f, FieldOf(states[i].calls[k], f)) { ShownIsLast(events[s..i], k, f); }
    ShownIsCreation(events[s..i], k);
    assert ShowsLast(states, events, k, s, i);
    ToolsAlwaysAgree(states, events, max, i);
  }

  predicate IsKept(before: Tools, after: Tools, k: string) {
    && k in before.calls && k in before.operations && k in after.calls && k in after.operations
    && after.calls[k] == before.calls[k] && after.operations[k] == before.operations[k]
  }

  /** One event, field by field: the call it is about takes what the event sets, and no other call changes. */
  ghost predicate Updates(before: Tools, e: ToolEvent, after: Tools) {
    && (e.u.id == "" ==> after == before)
    && (forall k | k in after.calls && k != e.u.id :: IsKept(before, after, k))
    && (e.u.id != "" && e.u.id in after.calls ==> TakesFields(CallOf(before, e.u.id), e, after.calls[e.u.id]))
  }

  ghost predicate TakesFields(was: ToolCall, e: ToolEvent, now: ToolCall) {
    forall f :: FieldOf(now, f) == if Sets(e, e.u.id, f) then SetTo(e, f) else FieldOf(was, f)
  }

  lemma StepUpdates(before: Tools, e: ToolEvent, max: int, after: Tools)
    requires ToolStep(before, e, max, after) && Agree(before)
    ensures Updates(before, e, after)
  {
    hide TakesFields, Agree, PrunedTo, Stored, IsKept;
    forall k | k in after.calls && k != e.u.id ensures IsKept(before, after, k) { OtherIsKept(before, e, max, after, k); }
    if e.u.id != "" && e.u.id in after.calls {
      StoredTakesFields(before, e);
      UpdatedIsStored(before, e, max, after);
    }
  }

  lemma OtherIsKept(before: Tools, e: ToolEvent, max: int, after: Tools, k: string)
    requires ToolStep(before, e, max, after) && Agree(before) && k in after.calls && k != e.u.id
    ensures IsKept(before, after, k)
  {
    hide OperationPhase, FinishedFirst, Overlaid, Created;
  }

  lemma UpdatedIsStored(before: Tools, e: ToolEvent, max: int, after: Tools)
    requires ToolStep(before, e, max, after) && e.u.id != "" && e.u.id in after.calls
    ensures e.u.id in Stored(before, e).calls && after.calls[e.u.id] == Stored(before, e).calls[e.u.id]
  {
    hide FinishedFirst, Stored;
  }

  predicate Fits(before: Tools, id: string, max: int) {
    var cap := Limit(max, DEFAULT_TOOL_CALLS);
    cap < 0 || |before.calls.Keys + {id}| <= cap
  }

  /** An event whose call is listed already, or finds room, drops nothing. */
  lemma StepLists(before: Tools, e: ToolEvent, max: int, after: Tools)
    requires ToolStep(before, e, max, after) && Agree(before) && e.u.id != "" && Fits(before, e.u.id, max)
    ensures after.calls.Keys == before.calls.Keys + {e.u.id}
  {
    hide OperationPhase, FinishedFirst, Stored, TakesFields, Agree;
    var stored := Stored(before, e);
    EntryAgrees(before, e);
    assert |stored.calls| == |stored.calls.Keys| && |after.calls| == |after.calls.Keys|;
    if after.calls.Keys != stored.calls.Keys { SmallerSet(after.calls.Keys, stored.calls.Keys); }
  }

  lemma StoredTakesFields(before: Tools, e: ToolEvent)
    ensures e.u.id in Stored(before, e).calls && TakesFields(CallOf(before, e.u.id), e, Stored(before, e).calls[e.u.id])
  {
    hide OperationPhase;
  }

  lemma SmallerSet<T>(small: set<T>, large: set<T>)
    requires small < large
    ensures |small| < |large|
  {
    assert large == small + (large - small);
    assert large - small != {};
  }
}
