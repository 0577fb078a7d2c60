/** The config freshness fence of the session driver: its fields and each critical section that touches them. */
module ConfigFence {
  import opened Options

  /** A provider's option value. */
  datatype Setting = Text(text: string) | Flag(on: bool)

  /** SessionConfigOption, as the provider reports it. */
  datatype ConfigOption = ConfigOption(
    id: string, name: string, description: Option<string>, category: Option<string>, value: Option<Setting>)

  /** RuntimeAgentConfigOption, as the read model keeps it. */
  datatype RuntimeOption = RuntimeOption(
    id: string, name: string, description: string, category: string, value: Option<Setting>)

  function OrEmpty(s: Option<string>): string {
    if s.Some? then s.value else ""
  }

  function Project(o: ConfigOption): RuntimeOption {
    RuntimeOption(o.id, o.name, OrEmpty(o.description), OrEmpty(o.category), o.value)
  }

  function ProjectAll(os: seq<ConfigOption>): (r: seq<RuntimeOption>)
    ensures |r| == |os| && forall k | 0 <= k < |r| :: r[k] == Project(os[k])
  {
    seq(|os|, k requires 0 <= k < |os| => Project(os[k]))
  }

  type RawConfig = map<string, Option<Setting>>

  function AddOptions(raw: RawConfig, options: seq<RuntimeOption>): RawConfig
    decreases |options|
  {
    if options == [] then raw
    else
      var o := options[0];
      AddOptions(if o.id != "" && o.value.Some? then raw[o.id := o.value] else raw, options[1..])
  }

  /** rawConfigFromMetadata: the mode first, then the options in order. */
  function RawConfigOf(mode: string, options: seq<RuntimeOption>): RawConfig {
    AddOptions(if mode != "" then map["mode" := Some(Text(mode))] else map[], options)
  }

  /** The read model shows an option field by field, a missing text as the empty one. */
  predicate Shows(o: ConfigOption, r: RuntimeOption) {
    && r.id == o.id && r.name == o.name && r.value == o.value
    && (o.description.Some? ==> r.description == o.description.value) && (o.description.None? ==> r.description == "")
    && (o.category.Some? ==> r.category == o.category.value) && (o.category.None? ==> r.category == "")
  }

  lemma SnapshotIsShown(options: seq<ConfigOption>)
    ensures |ProjectAll(options)| == |options|
    ensures forall k | 0 <= k < |options| :: Shows(options[k], ProjectAll(options)[k])
  {
  }

  predicate Gives(o: RuntimeOption, id: string) {
    o.id == id && o.value.Some?
  }

  /** The last option of an id that has a value decides. */
  ghost predicate LastGiven(options: seq<RuntimeOption>, id: string, k: int) {
    0 <= k < |options| && Gives(options[k], id) && forall j | k < j < |options| :: !Gives(options[j], id)
  }

  /** An entry comes from the last option of its id that has a value, and else was there before. */
  lemma {:induction false} AddedIsLast(raw: RawConfig, options: seq<RuntimeOption>, id: string)
    ensures forall k | LastGiven(options, id, k) && id != "" ::
      id in AddOptions(raw, options) && AddOptions(raw, options)[id] == options[k].value
    ensures id == "" || (forall k | 0 <= k < |options| :: !Gives(options[k], id)) ==>
      (id in AddOptions(raw, options) <==> id in raw)
      && (id in raw ==> AddOptions(raw, options)[id] == raw[id])
    decreases |options|
  {
    if options != [] {
      var o, rest := options[0], options[1..];
      var first := if o.id != "" && o.value.Some? then raw[o.id := o.value] else raw;
      assert forall k | 0 <= k < |rest| :: rest[k] == options[k + 1];
      AddedIsLast(first, rest, id);
      forall k | LastGiven(options, id, k) && id != ""
        ensures id in AddOptions(raw, options) && AddOptions(raw, options)[id] == options[k].value
      {
        if k > 0 { assert LastGiven(rest, id, k - 1); }
      }
    }
  }

  /**
   The raw config exactly: under each non-empty id the value of the last option of that id that has one; under
   "mode", when no option gives it, the mode, unless it is empty; and nothing else.
   */
  lemma RawConfigExactly(mode: string, options: seq<RuntimeOption>, id: string)
    ensures var raw := RawConfigOf(mode, options);
      && (forall k | LastGiven(options, id, k) && id != "" :: id in raw && raw[id] == options[k].value)
      && (id == "" || (forall k | 0 <= k < |options| :: !Gives(options[k], id)) ==>
            (id in raw <==> id == "mode" && mode != "") && (id in raw ==> raw[id] == Some(Text(mode))))
  {
    hide AddOptions;
    AddedIsLast(if mode != "" then map["mode" := Some(Text(mode))] else map[], options, id);
  }

  datatype Fence = Fence(
    mode: string,
    options: seq<RuntimeOption>,
    rawConfig: RawConfig,
    version: nat,    // configChangeVersion
    pending: nat,    // configChangesPending
    current: bool)   // configOptionsCurrent

  /** What beginConfigChange hands to a setter. */
  datatype Ticket = Ticket(version: nat, exclusive: bool)

  function Boot(mode: string, options: Option<seq<ConfigOption>>): Fence {
    var os := if options.Some? then ProjectAll(options.value) else [];
    Fence(mode, os, RawConfigOf(mode, os), 0, 0, options.Some?)
  }

  function BeginChange(f: Fence): (Fence, Ticket) {
    var g := f.(version := f.version + 1, pending := f.pending + 1, current := false);
    (g, Ticket(g.version, g.pending == 1))
  }

  function EndChange(f: Fence): Fence
    requires f.pending > 0
  {
    f.(pending := f.pending - 1)
  }

  /** replaceConfigOptionsLocked */
  function Replace(f: Fence, options: seq<ConfigOption>): Fence {
    var os := ProjectAll(options);
    f.(options := os, rawConfig := RawConfigOf(f.mode, os), current := f.pending == 0)
  }

  /** A current_mode_update; one without a mode changes nothing. */
  function NotifyMode(f: Fence, mode: string): Fence {
    if mode == "" then f
    else f.(version := f.version + 1, current := false, mode := mode, rawConfig := f.rawConfig["mode" := Some(Text(mode))])
  }

  /** A config_option_update. */
  function NotifyOptions(f: Fence, options: seq<ConfigOption>): Fence {
    Replace(f.(version := f.version + 1), options)
  }

  /** SetAgentMode after a successful response. */
  function AnswerMode(f: Fence, mode: string): Fence {
    f.(mode := mode, rawConfig := f.rawConfig["mode" := Some(Text(mode))])
  }

  function Patched(options: seq<RuntimeOption>, id: string, value: Option<Setting>): (r: seq<RuntimeOption>)
    ensures |r| == |options|
    ensures forall k | 0 <= k < |r| :: r[k] == if options[k].id == id then options[k].(value := value) else options[k]
  {
    seq(|options|, k requires 0 <= k < |options| =>
      if options[k].id == id then options[k].(value := value) else options[k])
  }

  predicate MayTrust(f: Fence, t: Ticket) {
    t.exclusive && f.pending == 1 && t.version == f.version
  }

  /** SetAgentConfigOption after a successful response, with the provider's full snapshot or, from old ones, none. */
  function AnswerOption(f: Fence, t: Ticket, id: string, value: Option<Setting>, snapshot: Option<seq<ConfigOption>>): Fence {
    var g := f.(rawConfig := f.rawConfig[id := value]);
    if snapshot.Some? then Replace(g, snapshot.value).(current := MayTrust(f, t))
    else g.(options := Patched(f.options, id, value))
  }

  /** The first option with an id, as initialConfigOptionEqual finds it. */
  function Find(options: seq<RuntimeOption>, id: string): Option<Setting> {
    if options == [] then None
    else if options[0].id == id then options[0].value
    else Find(options[1..], id)
  }

  /** initialConfigOptionEqual: whether the cached snapshot may stand in for an RPC. */
  predicate InitialOptionEqual(f: Fence, id: string, value: Option<Setting>) {
    f.current && f.pending == 0 && value.Some? && Find(f.options, id) == value
  }

  /** The test of applyInitialConfigMode: it asks for no trusted snapshot. */
  predicate InitialModeEqual(f: Fence, mode: string, aliasFailed: bool) {
    !aliasFailed && f.pending == 0 && f.mode == mode
  }

  /** A setter's request. */
  datatype Request = SetMode(mode: string) | SetOption(id: string, value: Option<Setting>)

  /** How the provider answers it. */
  datatype Answer = Refused | Accepted | Snapshot(options: seq<ConfigOption>)

  /** What the setter does with the answer, between the call's return and endConfigChange. */
  function Install(f: Fence, t: Ticket, r: Request, a: Answer): Fence {
    if a.Refused? then f
    else
      match r
      case SetMode(mode) => AnswerMode(f, mode)
      case SetOption(id, value) => AnswerOption(f, t, id, value, if a.Snapshot? then Some(a.options) else None)
  }
}
