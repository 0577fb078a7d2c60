/**
 The fence read off the history of config events alone: when the cached snapshot is trusted, which event
 installed it, and why. The driver's three fields decide exactly what this definition over histories says.
 */
module ConfigHistory {
  import opened Options
  import opened ConfigFence

  datatype Event =
    | Begin(id: nat)
    | End(id: nat)
    | ModeNote(mode: string)
    | OptionsNote(options: seq<ConfigOption>)
    | Installed(id: nat, request: Request, answer: Answer)

  /** A setter between begin and end; `at` is the index of its Begin event. */
  datatype Setter = Setter(ticket: Ticket, at: nat, settled: bool)

  datatype Driver = Driver(fence: Fence, open: map<nat, Setter>, used: set<nat>)

  function Apply(d: Driver, at: nat, e: Event): Option<Driver> {
    match e
    case Begin(id) =>
      if id in d.used then None
      else
        var (fence, ticket) := BeginChange(d.fence);
        Some(Driver(fence, d.open[id := Setter(ticket, at, false)], d.used + {id}))
    case End(id) =>
      if id !in d.open || d.fence.pending == 0 then None
      else Some(d.(fence := EndChange(d.fence), open := map k | k in d.open && k != id :: d.open[k]))
    case ModeNote(mode) => Some(d.(fence := NotifyMode(d.fence, mode)))
    case OptionsNote(options) => Some(d.(fence := NotifyOptions(d.fence, options)))
    case Installed(id, request, answer) =>
      if id !in d.open || d.open[id].settled then None
      else
        var s := d.open[id];
        Some(d.(fence := Install(d.fence, s.ticket, request, answer), open := d.open[id := s.(settled := true)]))
  }

  /** The driver after a history, if the history is one a driver can have. */
  function Play(boot: Fence, h: seq<Event>): Option<Driver> {
    if h == [] then Some(Driver(boot, map[], {}))
    else
      var before := Play(boot, h[..|h| - 1]);
      if before.None? then None else Apply(before.value, |h| - 1, h[|h| - 1])
  }

  // ---------- the same, from the events alone ----------

  /** Setters between begin and end after the events of `h`. */
  function OpenCount(h: seq<Event>): int {
    if h == [] then 0
    else
      var last := h[|h| - 1];
      OpenCount(h[..|h| - 1]) + (if last.Begin? then 1 else if last.End? then -1 else 0)
  }

  /** Events after which an earlier response can no longer be taken for fresh. */
  predicate Disturbs(e: Event) {
    e.Begin? || e.OptionsNote? || (e.ModeNote? && e.mode != "")
  }

  predicate Quiet(e: Event) {
    e.End? || e == ModeNote("")
  }

  predicate IsSnapshot(e: Event) {
    e.Installed? && e.request.SetOption? && e.answer.Snapshot?
  }

  /** Begin at `b` found no other setter, and nothing disturbed the interval up to `k`. */
  predicate Undisturbed(h: seq<Event>, b: nat, k: nat)
    requires b < k <= |h|
  {
    OpenCount(h[..b]) == 0 && forall j | b < j < k :: !Disturbs(h[j])
  }

  /** The event at `k` installed a snapshot that was the provider's when it arrived. */
  ghost predicate Authoritative(h: seq<Event>, k: nat)
    requires k < |h|
  {
    || (h[k].OptionsNote? && OpenCount(h[..k]) == 0)
    || (IsSnapshot(h[k]) && exists b :: 0 <= b < k && h[b] == Begin(h[k].id) && Undisturbed(h, b, k))
  }

  function InstalledOptions(e: Event): seq<ConfigOption> {
    match e
    case OptionsNote(options) => options
    case Installed(_, _, answer) => if answer.Snapshot? then answer.options else []
    case _ => []
  }

  /** `k` is the last config event of the history, up to ends of setters; -1 stands for the session response. */
  ghost predicate IsSource(boot: Fence, h: seq<Event>, k: int) {
    && -1 <= k < |h|
    && (if k < 0 then boot.current else Authoritative(h, k))
    && forall j | k < j < |h| :: Quiet(h[j])
  }

  // ---------- counting ----------

  function Disturbances(h: seq<Event>): nat {
    if h == [] then 0 else Disturbances(h[..|h| - 1]) + (if Disturbs(h[|h| - 1]) then 1 else 0)
  }

  lemma {:induction false} DisturbancesFrom(h: seq<Event>, i: nat)
    requires i <= |h|
    ensures Disturbances(h[..i]) <= Disturbances(h)
    ensures Disturbances(h[..i]) == Disturbances(h) <==> forall j | i <= j < |h| :: !Disturbs(h[j])
  {
    if i == |h| {
      assert h[..i] == h;
    } else {
      var g := h[..|h| - 1];
      assert g[..i] == h[..i];
      DisturbancesFrom(g, i);
      assert (forall j | i <= j < |g| :: !Disturbs(g[j])) <==> (forall j | i <= j < |g| :: !Disturbs(h[j]));
    }
  }

  // ---------- the invariant ----------

  ghost predicate SetterOk(h: seq<Event>, d: Driver, id: nat)
    requires id in d.open
  {
    var s := d.open[id];
    && s.at < |h| && h[s.at] == Begin(id) && id in d.used
    && (forall b | 0 <= b < |h| && h[b] == Begin(id) :: b == s.at)
    && s.ticket.version == Disturbances(h[..s.at + 1])
    && (s.ticket.exclusive <==> OpenCount(h[..s.at]) == 0)
  }

  ghost predicate Counted(boot: Fence, h: seq<Event>, d: Driver) {
    && d.fence.pending == |d.open| == OpenCount(h)
    && d.fence.version == boot.version + Disturbances(h)
    && boot.version == 0
  }

  ghost predicate Inv(boot: Fence, h: seq<Event>, d: Driver) {
    && Counted(boot, h, d)
    && (forall b | 0 <= b < |h| && h[b].Begin? :: h[b].id in d.used)
    && (forall id | id in d.open :: SetterOk(h, d, id))
    && OnlyOneAlone(d)
    && TrustSettles(d)
  }

  ghost predicate Alone(d: Driver, id: nat)
    requires id in d.open
  {
    d.open[id].ticket.exclusive && d.open[id].ticket.version == d.fence.version
  }

  predicate IsBoot(boot: Fence) {
    boot.version == 0 && boot.pending == 0
  }

  lemma LastEvent(h: seq<Event>, e: Event)
    ensures (h + [e])[..|h|] == h
    ensures OpenCount(h + [e]) == OpenCount(h) + (if e.Begin? then 1 else if e.End? then -1 else 0)
    ensures Disturbances(h + [e]) == Disturbances(h) + (if Disturbs(e) then 1 else 0)
    ensures forall i | 0 <= i <= |h| :: (h + [e])[..i] == h[..i]
  {
    assert (h + [e])[..|h|] == h;
  }

  /** What one event does to the open setters and to the fence's two counters. */
  lemma ApplyShape(d: Driver, at: nat, e: Event)
    requires Apply(d, at, e).Some?
    ensures var t := Apply(d, at, e).value;
      && t.fence.version == d.fence.version + (if Disturbs(e) then 1 else 0)
      && t.fence.pending == d.fence.pending + (if e.Begin? then 1 else if e.End? then -1 else 0)
      && t.used == (if e.Begin? then d.used + {e.id} else d.used)
      && (e.Begin? ==> e.id !in d.used && !t.fence.current)
      && (e.Begin? ==> t.open == d.open[e.id := Setter(Ticket(t.fence.version, d.fence.pending == 0), at, false)])
      && (e.End? ==> e.id in d.open && t.open == (map k | k in d.open && k != e.id :: d.open[k]) && t.fence.current == d.fence.current)
      && (e.Installed? ==> e.id in d.open && t.open == d.open[e.id := d.open[e.id].(settled := true)])
      && (e.Installed? && !IsSnapshot(e) ==> t.fence.current == d.fence.current)
      && (IsSnapshot(e) ==> t.fence.current == MayTrust(d.fence, d.open[e.id].ticket))
      && (e.OptionsNote? ==> t.open == d.open && t.fence.current == (d.fence.pending == 0))
      && (e.ModeNote? ==> t.open == d.open && (t.fence.current ==> d.fence.current && e.mode == ""))
  {
  }

  lemma SizeAfter(d: Driver, at: nat, e: Event)
    requires d.open.Keys <= d.used && Apply(d, at, e).Some?
    ensures |Apply(d, at, e).value.open| == |d.open| + (if e.Begin? then 1 else if e.End? then -1 else 0)
  {
    hide Apply, IsSnapshot, MayTrust, Disturbs;
    ApplyShape(d, at, e);
    var t := Apply(d, at, e).value;
    assert |t.open| == |t.open.Keys| && |d.open| == |d.open.Keys|;
    if e.Begin? {
      assert t.open.Keys == d.open.Keys + {e.id};
    } else if e.End? {
      assert t.open.Keys == d.open.Keys - {e.id};
    } else {
      assert t.open.Keys == d.open.Keys;
    }
  }

  lemma CountedStep(boot: Fence, h: seq<Event>, d: Driver, e: Event)
    requires Counted(boot, h, d) && d.open.Keys <= d.used && Apply(d, |h|, e).Some?
    ensures Counted(boot, h + [e], Apply(d, |h|, e).value)
  {
    hide Apply, OpenCount, Disturbances, IsSnapshot, MayTrust, Disturbs;
    SizeAfter(d, |h|, e);
    ApplyShape(d, |h|, e);
    LastEvent(h, e);
  }

  lemma KeptSetter(h: seq<Event>, d: Driver, e: Event, id: nat)
    requires Apply(d, |h|, e).Some? && id in d.open && id in Apply(d, |h|, e).value.open
    requires SetterOk(h, d, id)
    ensures SetterOk(h + [e], Apply(d, |h|, e).value, id)
  {
    hide Apply, Disturbances, OpenCount;
    ApplyShape(d, |h|, e);
    LastEvent(h, e);
    var t, g := Apply(d, |h|, e).value, h + [e];
    assert t.open[id].at == d.open[id].at && t.open[id].ticket == d.open[id].ticket;
    assert g[..d.open[id].at + 1] == h[..d.open[id].at + 1];
    assert forall b | 0 <= b < |h| :: g[b] == h[b];
    assert e != Begin(id);
  }

  lemma NewSetter(boot: Fence, h: seq<Event>, d: Driver, id: nat)
    requires Counted(boot, h, d) && Apply(d, |h|, Begin(id)).Some?
    requires forall b | 0 <= b < |h| && h[b].Begin? :: h[b].id in d.used
    ensures SetterOk(h + [Begin(id)], Apply(d, |h|, Begin(id)).value, id)
  {
    hide Apply, Disturbances, OpenCount;
    var e := Begin(id);
    ApplyShape(d, |h|, e);
    LastEvent(h, e);
    var g := h + [e];
    assert g[..|h| + 1] == g && g[|h|] == e;
    assert forall b | 0 <= b < |h| :: g[b] == h[b];
  }

  lemma SettersAreUsed(boot: Fence, h: seq<Event>, d: Driver)
    requires Inv(boot, h, d)
    ensures d.open.Keys <= d.used
  {
    forall id | id in d.open ensures id in d.used { assert SetterOk(h, d, id); }
  }

  /** A ticket never runs ahead of the fence. */
  lemma TicketsAreOld(boot: Fence, h: seq<Event>, d: Driver, id: nat)
    requires Counted(boot, h, d) && id in d.open && SetterOk(h, d, id)
    ensures d.open[id].ticket.version <= d.fence.version
  {
    DisturbancesFrom(h, d.open[id].at + 1);
  }

  lemma NothingOpen(d: Driver)
    requires d.fence.pending == |d.open| == 0
    ensures d.open == map[]
  {
  }

  ghost predicate OnlyOneAlone(d: Driver) {
    forall id, other | id in d.open && other in d.open && Alone(d, id) :: other == id
  }

  ghost predicate TrustSettles(d: Driver) {
    d.fence.current ==> forall id | id in d.open :: d.open[id].settled
  }

  lemma AloneStep(boot: Fence, h: seq<Event>, d: Driver, e: Event)
    requires Inv(boot, h, d) && Apply(d, |h|, e).Some?
    ensures OnlyOneAlone(Apply(d, |h|, e).value)
  {
    hide Apply, Disturbances, OpenCount, TrustSettles;
    ApplyShape(d, |h|, e);
    var t := Apply(d, |h|, e).value;
    forall id, other | id in t.open && other in t.open && Alone(t, id) ensures other == id {
      if id in d.open && (!e.Begin? || id != e.id) {
        assert SetterOk(h, d, id);
        TicketsAreOld(boot, h, d, id);
        assert Alone(d, id);
        assert other in d.open;
      } else if d.fence.pending == 0 {
        NothingOpen(d);
      }
    }
  }

  lemma TrustStep(boot: Fence, h: seq<Event>, d: Driver, e: Event)
    requires Inv(boot, h, d) && Apply(d, |h|, e).Some?
    ensures TrustSettles(Apply(d, |h|, e).value)
  {
    hide Apply, Disturbances, OpenCount;
    ApplyShape(d, |h|, e);
    var t := Apply(d, |h|, e).value;
    if t.fence.current {
      if e.OptionsNote? { NothingOpen(d); }
      if IsSnapshot(e) { assert Alone(d, e.id); }
    }
  }

  lemma InvStep(boot: Fence, h: seq<Event>, d: Driver, e: Event)
    requires Inv(boot, h, d) && Apply(d, |h|, e).Some?
    ensures Inv(boot, h + [e], Apply(d, |h|, e).value)
  {
    hide Apply, Counted, SetterOk, OnlyOneAlone, TrustSettles, Disturbances, OpenCount;
    SettersAreUsed(boot, h, d);
    CountedStep(boot, h, d, e);
    AloneStep(boot, h, d, e);
    TrustStep(boot, h, d, e);
    ApplyShape(d, |h|, e);
    var t := Apply(d, |h|, e).value;
    forall id | id in t.open ensures SetterOk(h + [e], t, id) {
      if id in d.open { KeptSetter(h, d, e, id); } else { NewSetter(boot, h, d, id); }
    }
    forall b | 0 <= b < |h + [e]| && (h + [e])[b].Begin? ensures (h + [e])[b].id in t.used {
      if b < |h| { assert (h + [e])[b] == h[b]; }
    }
  }

  lemma InvBoot(boot: Fence)
    requires IsBoot(boot)
    ensures Inv(boot, [], Driver(boot, map[], {}))
  {
  }

  lemma {:induction false} PlayInv(boot: Fence, h: seq<Event>)
    requires IsBoot(boot) && Play(boot, h).Some?
    ensures Inv(boot, h, Play(boot, h).value)
    decreases |h|
  {
    hide Apply, Inv, OpenCount, Disturbances;
    if h == [] {
      InvBoot(boot);
    } else {
      var g := h[..|h| - 1];
      PlayInv(boot, g);
      InvStep(boot, g, Play(boot, g).value, h[|h| - 1]);
      assert g + [h[|h| - 1]] == h;
    }
  }

  // ---------- the theorem ----------

  /** The three tests of a response together say that its whole interval was undisturbed. */
  lemma MayTrustIsUndisturbed(boot: Fence, h: seq<Event>, id: nat)
    requires IsBoot(boot) && Play(boot, h).Some? && id in Play(boot, h).value.open
    ensures var d := Play(boot, h).value;
      d.open[id].at < |h| && h[d.open[id].at] == Begin(id)
      && (MayTrust(d.fence, d.open[id].ticket) <==> Undisturbed(h, d.open[id].at, |h|))
      && (Alone(d, id) ==> d.fence.pending == 1)
  {
    PlayInv(boot, h);
    var d := Play(boot, h).value;
    assert SetterOk(h, d, id);
    var at := d.open[id].at;
    DisturbancesFrom(h, at + 1);
    if Alone(d, id) {
      assert d.open.Keys == {id};
      assert |d.open| == |d.open.Keys|;
    }
  }

  lemma AuthoritativeLast(boot: Fence, h: seq<Event>, e: Event)
    requires IsBoot(boot) && Play(boot, h).Some? && Apply(Play(boot, h).value, |h|, e).Some?
    requires e.OptionsNote? || IsSnapshot(e)
    ensures Apply(Play(boot, h).value, |h|, e).value.fence.current <==> Authoritative(h + [e], |h|)
  {
    var d := Play(boot, h).value;
    var g := h + [e];
    PlayInv(boot, h);
    LastEvent(h, e);
    if IsSnapshot(e) {
      MayTrustIsUndisturbed(boot, h, e.id);
      var at := d.open[e.id].at;
      assert SetterOk(h, d, e.id);
      assert forall b | 0 <= b < |h| && g[b] == Begin(e.id) :: h[b] == g[b];
      assert g[..at] == h[..at];
      assert Undisturbed(g, at, |h|) <==> Undisturbed(h, at, |h|);
    }
  }

  lemma AuthoritativePrefix(h: seq<Event>, e: Event, k: nat)
    requires k < |h|
    ensures Authoritative(h + [e], k) <==> Authoritative(h, k)
  {
    var g := h + [e];
    assert g[..k] == h[..k];
    forall b | 0 <= b < k ensures Undisturbed(g, b, k) <==> Undisturbed(h, b, k) {
      assert g[..b] == h[..b];
    }
  }

  lemma SourcePrefix(boot: Fence, h: seq<Event>, e: Event, k: int)
    requires Quiet(e) && k < |h|
    ensures IsSource(boot, h + [e], k) <==> IsSource(boot, h, k)
  {
    var g := h + [e];
    assert forall j | k < j < |h| && j >= 0 :: g[j] == h[j];
    assert g[|h|] == e;
    if 0 <= k { AuthoritativePrefix(h, e, k); }
    if IsSource(boot, g, k) {
      forall j | k < j < |h| ensures Quiet(h[j]) { assert Quiet(g[j]); }
    }
  }

  lemma SourceIsNotQuiet(boot: Fence, h: seq<Event>, k: int)
    requires IsSource(boot, h, k) && h != [] && Quiet(h[|h| - 1])
    ensures k < |h| - 1
  {
  }

  lemma SourceIsLoud(boot: Fence, h: seq<Event>, k: int)
    requires IsSource(boot, h, k) && h != [] && !Quiet(h[|h| - 1])
    ensures k == |h| - 1 && (h[k].OptionsNote? || IsSnapshot(h[k]))
  {
  }

  ghost predicate Explained(boot: Fence, h: seq<Event>, f: Fence, k: int) {
    && IsSource(boot, h, k)
    && f.options == (if k < 0 then boot.options else ProjectAll(InstalledOptions(h[k])))
    && f.rawConfig == RawConfigOf(f.mode, f.options)
  }

  /**
   The snapshot is trusted exactly when the last config event of the history, ends of setters aside, is an
   authoritative install: the session response, a notification that met no setter, or a response whose whole
   begin-to-install interval holds no other begin and no notification. The cached options are then those of that
   event, and the raw config is theirs and the mode's.
   */
  lemma {:induction false} TrustedExactlyWhenExplained(boot: Fence, h: seq<Event>)
    requires IsBoot(boot) && Play(boot, h).Some?
    requires boot.rawConfig == RawConfigOf(boot.mode, boot.options)
    ensures var f := Play(boot, h).value.fence;
      && (f.current ==> exists k :: Explained(boot, h, f, k))
      && ((exists k :: IsSource(boot, h, k)) ==> f.current)
    decreases |h|
  {
    if h == [] {
      if boot.current { assert Explained(boot, h, boot, -1); }
    } else {
      var g, e := h[..|h| - 1], h[|h| - 1];
      assert h == g + [e];
      TrustedExactlyWhenExplained(boot, g);
      ExplainStep(boot, g, e);
    }
  }

  /** The trust of `f` and the history that explains it. */
  ghost predicate Told(boot: Fence, h: seq<Event>, f: Fence) {
    (f.current ==> exists k :: Explained(boot, h, f, k)) && ((exists k :: IsSource(boot, h, k)) ==> f.current)
  }

  lemma ExplainStep(boot: Fence, g: seq<Event>, e: Event)
    requires IsBoot(boot) && Play(boot, g).Some? && Apply(Play(boot, g).value, |g|, e).Some?
    requires Told(boot, g, Play(boot, g).value.fence)
    ensures Told(boot, g + [e], Apply(Play(boot, g).value, |g|, e).value.fence)
  {
    hide Apply, Explained, IsSource, Told;
    if Quiet(e) {
      ExplainQuiet(boot, g, e);
    } else if e.OptionsNote? || IsSnapshot(e) {
      ExplainInstall(boot, g, e);
    } else {
      ExplainOther(boot, g, e);
    }
  }

  lemma QuietKeeps(d: Driver, at: nat, e: Event)
    requires Quiet(e) && Apply(d, at, e).Some?
    ensures var f := Apply(d, at, e).value.fence; f == d.fence.(pending := f.pending)
  {
  }

  lemma ExplainQuiet(boot: Fence, g: seq<Event>, e: Event)
    requires Quiet(e) && Play(boot, g).Some? && Apply(Play(boot, g).value, |g|, e).Some?
    requires Told(boot, g, Play(boot, g).value.fence)
    ensures Told(boot, g + [e], Apply(Play(boot, g).value, |g|, e).value.fence)
  {
    hide Apply, IsSource, Play, RawConfigOf, ProjectAll;
    var h, d := g + [e], Play(boot, g).value;
    var f := Apply(d, |g|, e).value.fence;
    QuietKeeps(d, |g|, e);
    if f.current {
      var k :| Explained(boot, g, d.fence, k);
      SourceRange(boot, g, k);
      SourcePrefix(boot, g, e, k);
      if 0 <= k { assert h[k] == g[k]; }
      assert Explained(boot, h, f, k);
    }
    if k :| IsSource(boot, h, k) {
      SourceIsNotQuiet(boot, h, k);
      SourcePrefix(boot, g, e, k);
    }
  }

  lemma SourceRange(boot: Fence, h: seq<Event>, k: int)
    requires IsSource(boot, h, k)
    ensures -1 <= k < |h|
  {
  }

  lemma InstallShows(d: Driver, at: nat, e: Event)
    requires Apply(d, at, e).Some? && (e.OptionsNote? || IsSnapshot(e))
    ensures var f := Apply(d, at, e).value.fence;
      f.options == ProjectAll(InstalledOptions(e)) && (f.current ==> f.rawConfig == RawConfigOf(f.mode, f.options))
  {
    hide ProjectAll, RawConfigOf;
  }

  lemma ExplainInstall(boot: Fence, g: seq<Event>, e: Event)
    requires IsBoot(boot) && (e.OptionsNote? || IsSnapshot(e))
    requires Play(boot, g).Some? && Apply(Play(boot, g).value, |g|, e).Some?
    ensures Told(boot, g + [e], Apply(Play(boot, g).value, |g|, e).value.fence)
  {
    hide Play, Apply, Authoritative, ProjectAll, RawConfigOf, InstalledOptions;
    AuthoritativeLast(boot, g, e);
    InstallShows(Play(boot, g).value, |g|, e);
    var h, f := g + [e], Apply(Play(boot, g).value, |g|, e).value.fence;
    assert h[|g|] == e;
    if f.current { assert Explained(boot, h, f, |g|); }
    if k :| IsSource(boot, h, k) { SourceIsLoud(boot, h, k); }
  }

  lemma ExplainOther(boot: Fence, g: seq<Event>, e: Event)
    requires IsBoot(boot) && !Quiet(e) && !e.OptionsNote? && !IsSnapshot(e)
    requires Play(boot, g).Some? && Apply(Play(boot, g).value, |g|, e).Some?
    ensures Told(boot, g + [e], Apply(Play(boot, g).value, |g|, e).value.fence)
  {
    hide Play, IsSource, Explained;
    PlayInv(boot, g);
    var h := g + [e];
    assert !Apply(Play(boot, g).value, |g|, e).value.fence.current;
    if k :| IsSource(boot, h, k) {
      SourceIsLoud(boot, h, k);
      assert false;
    }
  }

  /** The mode that the last mode event of the history names. */
  function ModeAfter(mode: string, h: seq<Event>): string {
    if h == [] then mode
    else
      match h[|h| - 1]
      case ModeNote(noted) => if noted != "" then noted else ModeAfter(mode, h[..|h| - 1])
      case Installed(_, SetMode(wanted), answer) =>
        if answer.Refused? then ModeAfter(mode, h[..|h| - 1]) else wanted
      case _ => ModeAfter(mode, h[..|h| - 1])
  }

  /** The cached mode is always that of the last mode notification or accepted mode setter, trusted or not. */
  lemma {:induction false} CachedModeIsTheLast(boot: Fence, h: seq<Event>)
    requires Play(boot, h).Some?
    ensures Play(boot, h).value.fence.mode == ModeAfter(boot.mode, h)
  {
    hide ProjectAll, RawConfigOf, Patched;
    if h != [] { CachedModeIsTheLast(boot, h[..|h| - 1]); }
  }
}
