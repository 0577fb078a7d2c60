/** Session metadata: the deep merge, and how the system prompt reaches it exactly once. */
module SessionMeta {
  import opened Options
  import opened Strings
  import opened Trees

  type Meta = map<string, Tree>

  /** mergeSessionMeta on two maps; of any other two values the second wins. */
  function Merge(base: Tree, extra: Tree): Tree
    decreases extra
  {
    if !base.Node? || !extra.Node? then extra
    else
      Node(map k | k in base.entries.Keys + extra.entries.Keys ::
        if k !in extra.entries then base.entries[k]
        else if k in base.entries then Merge(base.entries[k], extra.entries[k])
        else extra.entries[k])
  }

  function MergedEntry(base: Meta, extra: Meta, k: string): Tree
    requires k in base.Keys + extra.Keys
  {
    if k !in extra then base[k] else if k in base then Merge(base[k], extra[k]) else extra[k]
  }

  /** The loops of the source, over both maps in any order. */
  method MergeSessionMeta(base: Meta, extra: Meta) returns (out: Meta)
    ensures Node(out) == Merge(Node(base), Node(extra))
    decreases Node(extra)
  {
    out := CopyEntries(base);
    var todo := extra.Keys;
    while todo != {}
      invariant todo <= extra.Keys && out.Keys == base.Keys + (extra.Keys - todo)
      invariant forall k | k in out :: out[k] == if k in todo then base[k] else MergedEntry(base, extra, k)
    {
      var k :| k in todo;
      todo := todo - {k};
      if k in out && out[k].Node? && extra[k].Node? {
        assert extra[k] == Node(extra).entries[k];
        var merged := MergeSessionMeta(out[k].entries, extra[k].entries);
        assert Node(out[k].entries) == out[k] && Node(extra[k].entries) == extra[k];
        out := out[k := Node(merged)];
      } else {
        out := out[k := extra[k]];
      }
    }
    assert out == Merge(Node(base), Node(extra)).entries;
  }

  method CopyEntries(m: Meta) returns (out: Meta)
    ensures out == m
  {
    out := map[];
    var todo := m.Keys;
    while todo != {}
      invariant todo <= m.Keys && out.Keys == m.Keys - todo && forall k | k in out :: out[k] == m[k]
    {
      var k :| k in todo;
      todo := todo - {k};
      out := out[k := m[k]];
    }
  }

  // ---------- what is at each path after a merge ----------

  /** Whether the overriding value decides what is at `p`: it has something there, or a scalar on the way. */
  ghost predicate Blocks(extra: Tree, p: Path) {
    At(extra, p).Some? || exists i | 0 <= i < |p| :: LeafAt(extra, p[..i]).Some?
  }

  lemma BlocksStep(extra: Tree, p: Path)
    requires p != [] && extra.Node?
    ensures Blocks(extra, p) <==> p[0] in extra.entries && Blocks(extra.entries[p[0]], p[1..])
  {
    var k, q := p[0], p[1..];
    assert p == [k] + q;
    if p[0] in extra.entries {
      var below := extra.entries[k];
      forall i | 0 <= i < |q| ensures LeafAt(below, q[..i]) == LeafAt(extra, p[..i + 1]) {
        assert p[..i + 1] == [k] + q[..i];
        AtStep(extra, k, q[..i]);
      }
      if i :| 0 <= i < |p| && LeafAt(extra, p[..i]).Some? {
        assert i > 0;
        assert LeafAt(below, q[..i - 1]).Some?;
      }
      if i :| 0 <= i < |q| && LeafAt(below, q[..i]).Some? {
        assert LeafAt(extra, p[..i + 1]).Some?;
      }
    } else {
      forall i | 0 <= i < |p| ensures LeafAt(extra, p[..i]).None? {
        if i > 0 { assert p[..i][0] == k; }
      }
    }
  }

  lemma ScalarBlocks(extra: Tree, p: Path)
    requires !extra.Node?
    ensures Blocks(extra, p)
  {
    if p != [] { assert LeafAt(extra, p[..0]).Some?; }
  }

  lemma ScalarBlocksBelow(v: Tree, p: Path)
    requires !v.Node? && p != []
    ensures At(v, p) == None
  {
  }

  /**
   Every leaf of the merged value: where the overriding one blocks the path, its own leaf, if it has one there;
   everywhere else the base's. And likewise the maps.
   */
  lemma {:induction false} MergedPaths(base: Tree, extra: Tree, p: Path)
    requires base.Node? && extra.Node?
    ensures LeafAt(Merge(base, extra), p) == if Blocks(extra, p) then LeafAt(extra, p) else LeafAt(base, p)
    ensures IsMapAt(Merge(base, extra), p) <==> IsMapAt(extra, p) || (IsMapAt(base, p) && !Blocks(extra, p))
    decreases |p|
  {
    hide Blocks;
    if p == [] {
      assert Blocks(extra, []) by { EmptyPathBlocks(extra); }
    } else {
      var k, q := p[0], p[1..];
      assert p == [k] + q;
      AtStep(base, k, q);
      AtStep(extra, k, q);
      AtStep(Merge(base, extra), k, q);
      BlocksStep(extra, p);
      if k in base.entries && k in extra.entries {
        var b, e := base.entries[k], extra.entries[k];
        if b.Node? && e.Node? {
          MergedPaths(b, e, q);
        } else if e.Node? {
          NoPathBelow(b, e, q);
        } else {
          ScalarBlocks(e, q);
        }
      } else if k in extra.entries {
        NotBlocked(extra.entries[k], q);
      }
    }
  }

  lemma EmptyPathBlocks(extra: Tree)
    ensures Blocks(extra, [])
  {
  }

  lemma NotBlocked(e: Tree, q: Path)
    ensures !Blocks(e, q) ==> At(e, q) == None
  {
  }

  lemma NoPathBelow(b: Tree, e: Tree, q: Path)
    requires !b.Node? && e.Node?
    ensures !Blocks(e, q) ==> At(e, q) == None && At(b, q) == None
  {
    if q == [] { EmptyPathBlocks(e); } else { ScalarBlocksBelow(b, q); }
  }

  // ---------- the algebra of merging ----------

  lemma {:induction false} EmptyIsIdentity(v: Tree)
    requires v.Node?
    ensures Merge(EMPTY, v) == v && Merge(v, EMPTY) == v
  {
    assert Merge(EMPTY, v).entries == v.entries;
    assert Merge(v, EMPTY).entries == v.entries;
  }

  lemma {:induction false} MergeIsIdempotent(v: Tree)
    ensures Merge(v, v) == v
    decreases v
  {
    if v.Node? {
      forall k | k in v.entries ensures Merge(v.entries[k], v.entries[k]) == v.entries[k] {
        MergeIsIdempotent(v.entries[k]);
      }
      assert Merge(v, v).entries == v.entries;
    }
  }

  /** `base` has something at `q` that `extra` does not decide. */
  ghost predicate Adds(base: Tree, extra: Tree, q: Path) {
    At(base, q).Some? && !Blocks(extra, q)
  }

  lemma MergeAdds(base: Tree, extra: Tree)
    requires base.Node? && extra.Node?
    ensures Merge(base, extra) != extra <==> exists q :: Adds(base, extra, q)
  {
    hide Merge;
    var merged := Merge(base, extra);
    if q :| Adds(base, extra, q) {
      MergedPaths(base, extra, q);
    } else {
      forall q
        ensures LeafAt(merged, q) == LeafAt(extra, q)
        ensures IsMapAt(merged, q) <==> IsMapAt(extra, q)
      {
        MergedPaths(base, extra, q);
        assert !Adds(base, extra, q);
      }
      PathsDetermineValue(merged, extra);
    }
  }

  /** A scalar of `b` sits between a map of `a` and one of `c`, and the map of `a` would add to that of `c`. */
  ghost predicate Hides(a: Tree, b: Tree, c: Tree, p: Path) {
    && IsMapAt(a, p) && LeafAt(b, p).Some? && IsMapAt(c, p)
    && exists q :: Adds(At(a, p).value, At(c, p).value, q)
  }

  lemma HidesBelow(a: Tree, b: Tree, c: Tree, k: string, p: Path)
    requires a.Node? && b.Node? && c.Node? && k in a.entries && k in b.entries && k in c.entries
    ensures Hides(a, b, c, [k] + p) <==> Hides(a.entries[k], b.entries[k], c.entries[k], p)
  {
    AtStep(a, k, p);
    AtStep(b, k, p);
    AtStep(c, k, p);
  }

  lemma {:induction false} Associates(a: Tree, b: Tree, c: Tree)
    requires forall p :: !Hides(a, b, c, p)
    ensures Merge(Merge(a, b), c) == Merge(a, Merge(b, c))
    decreases c
  {
    if a.Node? && b.Node? && c.Node? {
      var left, right := Merge(Merge(a, b), c), Merge(a, Merge(b, c));
      forall k | k in left.entries ensures left.entries[k] == right.entries[k] {
        if k in a.entries && k in b.entries && k in c.entries {
          forall p ensures !Hides(a.entries[k], b.entries[k], c.entries[k], p) { HidesBelow(a, b, c, k, p); }
          Associates(a.entries[k], b.entries[k], c.entries[k]);
        }
      }
      assert left.entries == right.entries;
    } else if a.Node? && c.Node? {
      MergeAdds(a, c);
      assert !Hides(a, b, c, []);
    }
  }

  lemma {:induction false} MergeAt(a: Tree, b: Tree, p: Path)
    requires IsMapAt(a, p) && IsMapAt(b, p)
    ensures At(Merge(a, b), p) == Some(Merge(At(a, p).value, At(b, p).value))
    decreases |p|
  {
    if p != [] {
      MergeAt(a.entries[p[0]], b.entries[p[0]], p[1..]);
    }
  }

  lemma {:induction false} MergeOverScalar(b: Tree, c: Tree, p: Path)
    requires LeafAt(b, p).Some? && IsMapAt(c, p)
    ensures At(Merge(b, c), p) == At(c, p)
    decreases |p|
  {
    if p != [] {
      MergeOverScalar(b.entries[p[0]], c.entries[p[0]], p[1..]);
    }
  }

  lemma {:induction false} MergeUnderScalar(a: Tree, b: Tree, p: Path)
    requires IsMapAt(a, p) && LeafAt(b, p).Some?
    ensures At(Merge(a, b), p) == At(b, p)
    decreases |p|
  {
    if p != [] {
      MergeUnderScalar(a.entries[p[0]], b.entries[p[0]], p[1..]);
    }
  }

  /**
   Merging is associative exactly when no scalar of the middle value separates a map of the first from one of the
   last in which some path of the first's is open: the last has nothing there and no scalar on the way.
   */
  lemma MergeIsAssociativeExactly(a: Tree, b: Tree, c: Tree)
    ensures Merge(Merge(a, b), c) == Merge(a, Merge(b, c)) <==> forall p :: !Hides(a, b, c, p)
  {
    hide Merge;
    if forall p :: !Hides(a, b, c, p) {
      Associates(a, b, c);
    } else {
      var p :| Hides(a, b, c, p);
      MergeUnderScalar(a, b, p);
      MergeOverScalar(Merge(a, b), c, p);
      MergeOverScalar(b, c, p);
      MergeAt(a, Merge(b, c), p);
      MergeAdds(At(a, p).value, At(c, p).value);
    }
  }

  /** In particular it is on maps that never put a map and a scalar at the same path. */
  lemma MergeIsAssociative(a: Tree, b: Tree, c: Tree)
    requires forall p :: !(IsMapAt(a, p) && LeafAt(b, p).Some?)
    ensures Merge(Merge(a, b), c) == Merge(a, Merge(b, c))
  {
    forall p ensures !Hides(a, b, c, p) { assert !(IsMapAt(a, p) && LeafAt(b, p).Some?); }
    Associates(a, b, c);
  }

  // ---------- the system prompt ----------

  const SYSTEM_PROMPT := "systemPrompt"
  const APPEND_SYSTEM_PROMPT := "appendSystemPrompt"

  predicate Reserved(key: string) {
    key == SYSTEM_PROMPT || key == APPEND_SYSTEM_PROMPT
  }

  datatype Projection = Replace(text: string) | Append(text: string)

  datatype Result<T> = Ok(value: T) | Err(message: string)

  /** The text under a reserved key: empty when it is absent or blank. */
  function PromptText(meta: Meta, key: string): Result<string> {
    if key !in meta then Ok("")
    else if !meta[key].Text? then Err("_meta." + key + " must be a string")
    else if TrimSpace(meta[key].text) == "" then Ok("")
    else Ok(meta[key].text)
  }

  function Remaining(meta: Meta): Meta {
    map k | k in meta && !Reserved(k) :: meta[k]
  }

  function PromptOf(meta: Meta): Result<Option<Projection>> {
    var replace := PromptText(meta, SYSTEM_PROMPT);
    if replace.Err? then Err(replace.message)
    else
      var append := PromptText(meta, APPEND_SYSTEM_PROMPT);
      if append.Err? then Err(append.message)
      else if replace.value != "" && append.value != "" then
        Err("_meta.systemPrompt and _meta.appendSystemPrompt are mutually exclusive")
      else if replace.value != "" then Ok(Some(Replace(replace.value)))
      else if append.value != "" then Ok(Some(Append(append.value)))
      else Ok(None)
  }

  predicate IsText(meta: Meta, key: string) {
    key in meta ==> meta[key].Text?
  }

  /** The key holds text that is not blank. */
  predicate Says(meta: Meta, key: string) {
    key in meta && meta[key].Text? && TrimSpace(meta[key].text) != ""
  }

  /** The start is refused for what the metadata says: a reserved key that is no text, or two prompts. */
  predicate IsRefused(meta: Meta) {
    || !IsText(meta, "systemPrompt") || !IsText(meta, "appendSystemPrompt")
    || (Says(meta, "systemPrompt") && Says(meta, "appendSystemPrompt"))
  }

  /** The prompt of metadata that is not refused: systemPrompt replaces, appendSystemPrompt appends, blank is none. */
  lemma PromptIsWhatIsSaid(meta: Meta)
    ensures PromptOf(meta).Err? <==> IsRefused(meta)
    ensures !IsRefused(meta) && Says(meta, "systemPrompt") ==> PromptOf(meta).value == Some(Replace(meta["systemPrompt"].text))
    ensures !IsRefused(meta) && Says(meta, "appendSystemPrompt") ==>
      PromptOf(meta).value == Some(Append(meta["appendSystemPrompt"].text))
    ensures !IsRefused(meta) && !Says(meta, "systemPrompt") && !Says(meta, "appendSystemPrompt") ==>
      PromptOf(meta).value == None
  {
    hide TrimSpace;
    TrimOfEmpty();
  }

  lemma TrimOfEmpty()
    ensures TrimSpace("") == ""
  {
  }

  method ExtractSystemPrompt(meta: Meta) returns (prompt: Result<Option<Projection>>, remaining: Meta)
    ensures prompt == PromptOf(meta)
    ensures prompt.Err? <==> IsRefused(meta)
    ensures prompt.Ok? && Says(meta, "systemPrompt") ==> prompt.value == Some(Replace(meta["systemPrompt"].text))
    ensures prompt.Ok? && Says(meta, "appendSystemPrompt") ==> prompt.value == Some(Append(meta["appendSystemPrompt"].text))
    ensures prompt.Ok? && !Says(meta, "systemPrompt") && !Says(meta, "appendSystemPrompt") ==> prompt.value == None
    ensures prompt.Ok? ==> remaining == Remaining(meta) == meta - {"systemPrompt", "appendSystemPrompt"}
  {
    PromptIsWhatIsSaid(meta);
    remaining := map[];
    var todo := meta.Keys;
    while todo != {}
      invariant todo <= meta.Keys
      invariant remaining.Keys == set k | k in meta.Keys - todo && !Reserved(k)
      invariant forall k | k in remaining :: remaining[k] == meta[k]
    {
      var k :| k in todo;
      todo := todo - {k};
      if k != SYSTEM_PROMPT && k != APPEND_SYSTEM_PROMPT {
        remaining := remaining[k := meta[k]];
      }
    }
    prompt := PromptOf(meta);
  }

  /** A provider profile: how it projects a prompt and applies an AgentConfig, each of which it may lack. */
  datatype Profile<!A, !C> = Profile(project: Option<(A, Projection) -> (A, Meta)>, applyConfig: Option<(A, C) -> (A, Meta)>)

  /** Metadata that may be nil. */
  function Merged(base: Option<Meta>, extra: Meta): Meta {
    Merge(Node(if base.Some? then base.value else map[]), Node(extra)).entries
  }

  function AfterPrompt<A, C>(profile: Profile<A, C>, agent: A, prompt: Option<Projection>): Result<(A, Option<Meta>)> {
    if prompt.None? then Ok((agent, None))
    else if profile.project.None? then Err("agent profile does not support system prompt projection")
    else
      var (projected, meta) := profile.project.value(agent, prompt.value);
      Ok((projected, Some(Merged(None, meta))))
  }

  predicate HasReserved(meta: Meta) {
    SYSTEM_PROMPT in meta || APPEND_SYSTEM_PROMPT in meta
  }

  function AfterConfig<A, C>(profile: Profile<A, C>, agent: A, meta: Option<Meta>, config: Option<C>): Result<(A, Option<Meta>)> {
    if config.None? || profile.applyConfig.None? then Ok((agent, meta))
    else
      var (configured, extra) := profile.applyConfig.value(agent, config.value);
      if HasReserved(extra) then Err("AgentConfig metadata contains a reserved system prompt key")
      else Ok((configured, if |extra| > 0 then Some(Merged(meta, extra)) else meta))
  }

  /** prepareAgentSessionStart */
  function Prepare<A, C>(profile: Profile<A, C>, agent: A, config: Option<C>, meta: Meta): Result<(A, Option<Meta>)> {
    var prompt := PromptOf(meta);
    if prompt.Err? then Err(prompt.message)
    else
      var first := AfterPrompt(profile, agent, prompt.value);
      if first.Err? then first
      else
        var second := AfterConfig(profile, first.value.0, first.value.1, config);
        if second.Err? || |Remaining(meta)| == 0 then second
        else Ok((second.value.0, Some(Merged(second.value.1, Remaining(meta)))))
  }

  /** What the caller asked for, in metadata that is not refused. */
  function Asked(meta: Meta): Option<Projection> {
    if Says(meta, "systemPrompt") then Some(Replace(meta["systemPrompt"].text))
    else if Says(meta, "appendSystemPrompt") then Some(Append(meta["appendSystemPrompt"].text))
    else None
  }

  /** What the profile projected, if anything. */
  function PromptMeta<A, C>(profile: Profile<A, C>, agent: A, meta: Meta): Meta {
    if Asked(meta).Some? && profile.project.Some? then profile.project.value(agent, Asked(meta).value).1 else map[]
  }

  function PromptAgent<A, C>(profile: Profile<A, C>, agent: A, meta: Meta): A {
    if Asked(meta).Some? && profile.project.Some? then profile.project.value(agent, Asked(meta).value).0 else agent
  }

  function ConfigMeta<A, C>(profile: Profile<A, C>, agent: A, config: Option<C>): Meta {
    if config.Some? && profile.applyConfig.Some? then profile.applyConfig.value(agent, config.value).1 else map[]
  }

  function ConfigAgent<A, C>(profile: Profile<A, C>, agent: A, config: Option<C>): A {
    if config.Some? && profile.applyConfig.Some? then profile.applyConfig.value(agent, config.value).0 else agent
  }

  function OrEmptyMeta(meta: Option<Meta>): Meta {
    if meta.Some? then meta.value else map[]
  }

  lemma MergedIsMerge(base: Option<Meta>, extra: Meta)
    ensures Node(Merged(base, extra)) == Merge(Node(OrEmptyMeta(base)), Node(extra))
    ensures extra == map[] ==> Merged(base, extra) == OrEmptyMeta(base)
  {
    if extra == map[] { EmptyIsIdentity(Node(OrEmptyMeta(base))); }
  }

  /** The result is the projection, overridden by the AgentConfig's metadata, overridden by the caller's. */
  lemma PreparedIsMerged<A, C>(profile: Profile<A, C>, agent: A, config: Option<C>, meta: Meta)
    requires Prepare(profile, agent, config, meta).Ok?
    ensures !IsRefused(meta) && (Asked(meta).Some? ==> profile.project.Some?)
    ensures Prepare(profile, agent, config, meta).value.0 == ConfigAgent(profile, PromptAgent(profile, agent, meta), config)
    ensures var projected := PromptMeta(profile, agent, meta);
      var configured := ConfigMeta(profile, PromptAgent(profile, agent, meta), config);
      && !HasReserved(configured)
      && Node(OrEmptyMeta(Prepare(profile, agent, config, meta).value.1))
         == Merge(Merge(Node(projected), Node(configured)), Node(Remaining(meta)))
  {
    hide Merge, PromptOf, Remaining, Merged, Says, IsText;
    PromptIsWhatIsSaid(meta);
    assert PromptOf(meta).value == Asked(meta);
    var projected := PromptMeta(profile, agent, meta);
    var first := AfterPrompt(profile, agent, PromptOf(meta).value);
    MergedIsMerge(None, projected);
    EmptyIsIdentity(Node(projected));
    assert OrEmptyMeta(first.value.1) == projected;
    var configured := ConfigMeta(profile, first.value.0, config);
    MergedIsMerge(first.value.1, configured);
    var second := AfterConfig(profile, first.value.0, first.value.1, config);
    assert |configured| == 0 ==> configured == map[];
    EmptyIsIdentity(Node(OrEmptyMeta(first.value.1)));
    assert Node(OrEmptyMeta(second.value.1)) == Merge(Node(projected), Node(configured));
    MergedIsMerge(second.value.1, Remaining(meta));
    assert |Remaining(meta)| == 0 ==> Remaining(meta) == map[];
    EmptyIsIdentity(Node(OrEmptyMeta(second.value.1)));
  }

  predicate SameAt(out: Meta, projected: Meta, key: string) {
    (key in out <==> key in projected) && (key in out ==> out[key] == projected[key])
  }

  /**
   A successful start has under the two reserved keys exactly what the profile projected for the prompt asked for,
   replacing or appending, and nothing when that is absent or blank.
   */
  lemma PromptIsProjectedOnce<A, C>(profile: Profile<A, C>, agent: A, config: Option<C>, meta: Meta, key: string)
    requires Prepare(profile, agent, config, meta).Ok? && (key == "systemPrompt" || key == "appendSystemPrompt")
    ensures Says(meta, "systemPrompt") || Says(meta, "appendSystemPrompt") ==> profile.project.Some?
    ensures var out := OrEmptyMeta(Prepare(profile, agent, config, meta).value.1);
      if Says(meta, "systemPrompt") then
        SameAt(out, profile.project.value(agent, Replace(meta["systemPrompt"].text)).1, key)
      else if Says(meta, "appendSystemPrompt") then
        SameAt(out, profile.project.value(agent, Append(meta["appendSystemPrompt"].text)).1, key)
      else key !in out
  {
    hide Prepare, PromptOf, Says;
    PreparedIsMerged(profile, agent, config, meta);
  }

  /** The agent of a successful start went through the projection of that prompt, and then through its config. */
  lemma AgentIsProjectedThenConfigured<A, C>(profile: Profile<A, C>, agent: A, config: Option<C>, meta: Meta)
    requires Prepare(profile, agent, config, meta).Ok?
    ensures Says(meta, "systemPrompt") || Says(meta, "appendSystemPrompt") ==> profile.project.Some?
    ensures Prepare(profile, agent, config, meta).value.0 ==
      var projected :=
        if Says(meta, "systemPrompt") then profile.project.value(agent, Replace(meta["systemPrompt"].text)).0
        else if Says(meta, "appendSystemPrompt") then profile.project.value(agent, Append(meta["appendSystemPrompt"].text)).0
        else agent;
      if config.Some? && profile.applyConfig.Some? then profile.applyConfig.value(projected, config.value).0 else projected
  {
    hide Prepare, PromptOf, Says, Merge;
    PreparedIsMerged(profile, agent, config, meta);
  }

  lemma SameBlocks(meta: Meta, p: Path)
    requires p != [] && p[0] != "systemPrompt" && p[0] != "appendSystemPrompt"
    ensures LeafAt(Node(Remaining(meta)), p) == LeafAt(Node(meta), p)
    ensures Blocks(Node(Remaining(meta)), p) <==> Blocks(Node(meta), p)
  {
    hide Blocks;
    BlocksStep(Node(meta), p);
    BlocksStep(Node(Remaining(meta)), p);
  }

  /** At every other path the caller's metadata overrides the AgentConfig's, which overrides the projection. */
  lemma OtherPathsAreLayered<A, C>(profile: Profile<A, C>, agent: A, config: Option<C>, meta: Meta, p: Path)
    requires Prepare(profile, agent, config, meta).Ok? && p != []
    requires p[0] != "systemPrompt" && p[0] != "appendSystemPrompt"
    ensures var out := Node(OrEmptyMeta(Prepare(profile, agent, config, meta).value.1));
      var projected := Node(PromptMeta(profile, agent, meta));
      var configured := Node(ConfigMeta(profile, PromptAgent(profile, agent, meta), config));
      LeafAt(out, p) ==
        if Blocks(Node(meta), p) then LeafAt(Node(meta), p)
        else if Blocks(configured, p) then LeafAt(configured, p)
        else LeafAt(projected, p)
  {
    hide Prepare, PromptOf, Blocks, LeafAt, IsMapAt, Merge;
    PreparedIsMerged(profile, agent, config, meta);
    var projected := Node(PromptMeta(profile, agent, meta));
    var configured := Node(ConfigMeta(profile, PromptAgent(profile, agent, meta), config));
    MergedPaths(projected, configured, p);
    assert Merge(projected, configured).Node? by { MergeIsNode(projected, configured); }
    MergedPaths(Merge(projected, configured), Node(Remaining(meta)), p);
    SameBlocks(meta, p);
  }

  lemma MergeIsNode(base: Tree, extra: Tree)
    requires extra.Node?
    ensures Merge(base, extra).Node?
  {
  }

  /** Exactly when a start is refused. */
  lemma RefusedExactlyWhen<A, C>(profile: Profile<A, C>, agent: A, config: Option<C>, meta: Meta)
    ensures Prepare(profile, agent, config, meta).Err? <==>
      || IsRefused(meta)
      || ((Says(meta, "systemPrompt") || Says(meta, "appendSystemPrompt")) && profile.project.None?)
      || var configured := ConfigMeta(profile, PromptAgent(profile, agent, meta), config);
         "systemPrompt" in configured || "appendSystemPrompt" in configured
  {
    hide Merge, PromptOf, Says, IsText;
    PromptIsWhatIsSaid(meta);
  }
}
