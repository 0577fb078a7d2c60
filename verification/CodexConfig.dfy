/** Nested configuration flattened into dotted command-line overrides, and rebuilt from them. */
module CodexConfig {
  import opened Options
  import opened Strings
  import opened Trees

  /** One -c override; how a leaf is printed as TOML is left open. */
  datatype Override = Override(path: string, leaf: Tree)

  ghost function SortedKeys(keys: set<string>): (r: seq<string>)
    ensures Ascending(r) && forall k :: k in r <==> k in keys
  {
    if keys == {} then []
    else
      var k :| k in keys;
      var rest := SortedKeys(keys - {k});
      InsertedAscends(rest, k);
      Inserted(rest, k)
  }

  function Extended(prefix: string, key: string): string {
    if prefix == "" then key else prefix + "." + key
  }

  ghost function Flatten(prefix: string, v: Tree): seq<Override>
    decreases v, 1, 0
  {
    if v.Node? then FlattenKeys(prefix, v, SortedKeys(v.entries.Keys))
    else if prefix == "" then []
    else [Override(prefix, v)]
  }

  ghost function FlattenKeys(prefix: string, v: Tree, keys: seq<string>): seq<Override>
    requires v.Node? && forall k | k in keys :: k in v.entries
    decreases v, 0, |keys|
  {
    if keys == [] then []
    else
      assert forall k | k in keys[1..] :: k in keys;
      Flatten(Extended(prefix, keys[0]), v.entries[keys[0]]) + FlattenKeys(prefix, v, keys[1..])
  }

  lemma {:induction false} FlattenKeysSnoc(prefix: string, v: Tree, keys: seq<string>, k: string)
    requires v.Node? && k in v.entries && forall j | j in keys :: j in v.entries
    ensures FlattenKeys(prefix, v, keys + [k]) == FlattenKeys(prefix, v, keys) + Flatten(Extended(prefix, k), v.entries[k])
  {
    hide Flatten;
    if keys == [] {
      assert [] + [k] == [k];
      assert FlattenKeys(prefix, v, [k]) == Flatten(Extended(prefix, k), v.entries[k]) + FlattenKeys(prefix, v, []);
    } else {
      assert forall j | j in keys[1..] :: j in keys;
      assert (keys + [k])[1..] == keys[1..] + [k];
      FlattenKeysSnoc(prefix, v, keys[1..], k);
    }
  }

  lemma FlattenNode(prefix: string, v: Tree)
    requires v.Node?
    ensures Flatten(prefix, v) == FlattenFirst(prefix, v, SortedKeys(v.entries.Keys), |SortedKeys(v.entries.Keys)|)
    ensures FlattenFirst(prefix, v, SortedKeys(v.entries.Keys), 0) == []
  {
    var keys := SortedKeys(v.entries.Keys);
    assert keys[..|keys|] == keys;
  }

  /** What the first `n` keys contribute. */
  ghost function FlattenFirst(prefix: string, v: Tree, keys: seq<string>, n: nat): seq<Override>
    requires v.Node? && n <= |keys| && forall k | k in keys :: k in v.entries
  {
    assert forall k | k in keys[..n] :: k in keys;
    FlattenKeys(prefix, v, keys[..n])
  }

  lemma FlattenNext(prefix: string, v: Tree, keys: seq<string>, n: nat)
    requires v.Node? && n < |keys| && forall k | k in keys :: k in v.entries
    ensures FlattenFirst(prefix, v, keys, n + 1)
         == FlattenFirst(prefix, v, keys, n) + Flatten(Extended(prefix, keys[n]), v.entries[keys[n]])
  {
    hide Flatten, FlattenKeys;
    assert forall k | k in keys[..n] :: k in keys;
    FlattenKeysSnoc(prefix, v, keys[..n], keys[n]);
    assert keys[..n + 1] == keys[..n] + [keys[n]];
  }

  lemma FlattenLeaf(prefix: string, v: Tree)
    requires !v.Node?
    ensures Flatten(prefix, v) == if prefix == "" then [] else [Override(prefix, v)]
  {
  }

  /** The keys of a map in whatever order the iteration gives them. */
  method CollectKeys(entries: map<string, Tree>) returns (keys: seq<string>)
    ensures forall k :: k in keys <==> k in entries
    ensures forall i, j | 0 <= i < j < |keys| :: keys[i] != keys[j]
  {
    keys := [];
    var todo := entries.Keys;
    while todo != {}
      invariant todo <= entries.Keys
      invariant forall k :: k in keys <==> k in entries && k !in todo
      invariant forall i, j | 0 <= i < j < |keys| :: keys[i] != keys[j]
    {
      var k :| k in todo;
      assert forall j :: j in keys + [k] <==> j in keys || j == k;
      todo := todo - {k};
      keys := keys + [k];
    }
  }

  /** flattenCodexConfig: the output does not depend on the order of the maps. */
  method FlattenCodexConfig(prefix: string, value: Tree, args: seq<Override>) returns (out: seq<Override>)
    ensures out == args + Flatten(prefix, value)
    decreases value
  {
    hide Less, Flatten, FlattenKeys, FlattenFirst, Ascending, SortedKeys, Sorted;
    out := args;
    if value.Node? {
      var keys := CollectKeys(value.entries);
      keys := Sorted(keys);
      AscendingIsUnique(keys, SortedKeys(value.entries.Keys));
      FlattenNode(prefix, value);
      for i := 0 to |keys|
        invariant out == args + FlattenFirst(prefix, value, keys, i)
      {
        var key := keys[i];
        var path := key;
        if prefix != "" {
          path := prefix + "." + key;
        }
        assert path == Extended(prefix, key);
        FlattenNext(prefix, value, keys, i);
        ghost var first, more := FlattenFirst(prefix, value, keys, i), Flatten(path, value.entries[key]);
        out := FlattenCodexConfig(path, value.entries[key], out);
        assert out == (args + first) + more == args + (first + more);
        assert FlattenFirst(prefix, value, keys, i + 1) == first + more;
      }
      return;
    }
    FlattenLeaf(prefix, value);
    if prefix == "" {
      return;
    }
    out := out + [Override(prefix, value)];
  }

  // ---------- the leaves of a tree, in the order of their paths ----------

  datatype Leaf = Leaf(path: Path, value: Tree)

  function Under(k: string, leaves: seq<Leaf>): (r: seq<Leaf>)
    ensures |r| == |leaves| && forall i | 0 <= i < |r| :: r[i] == Leaf([k] + leaves[i].path, leaves[i].value)
  {
    seq(|leaves|, i requires 0 <= i < |leaves| => Leaf([k] + leaves[i].path, leaves[i].value))
  }

  ghost function Leaves(v: Tree): seq<Leaf>
    decreases v, 1, 0
  {
    if v.Node? then LeavesOf(v, SortedKeys(v.entries.Keys)) else [Leaf([], v)]
  }

  ghost function LeavesOf(v: Tree, keys: seq<string>): seq<Leaf>
    requires v.Node? && forall k | k in keys :: k in v.entries
    decreases v, 0, |keys|
  {
    if keys == [] then []
    else
      assert forall k | k in keys[1..] :: k in keys;
      Under(keys[0], Leaves(v.entries[keys[0]])) + LeavesOf(v, keys[1..])
  }

  lemma UnderMembers(k: string, leaves: seq<Leaf>, p: Path, x: Tree)
    ensures Leaf(p, x) in Under(k, leaves) <==> p != [] && p[0] == k && Leaf(p[1..], x) in leaves
  {
    var u := Under(k, leaves);
    if Leaf(p, x) in u {
      var i :| 0 <= i < |u| && u[i] == Leaf(p, x);
      assert p[1..] == leaves[i].path;
    }
    if p != [] && p[0] == k && Leaf(p[1..], x) in leaves {
      var i :| 0 <= i < |leaves| && leaves[i] == Leaf(p[1..], x);
      assert [k] + p[1..] == p;
      assert u[i] == Leaf(p, x);
    }
  }

  /** A leaf is in the list exactly when it is in the tree. */
  lemma {:induction false} LeavesAreLeaves(v: Tree, p: Path, x: Tree)
    ensures Leaf(p, x) in Leaves(v) <==> LeafAt(v, p) == Some(x)
    decreases v, 1, 0
  {
    hide LeavesOf;
    if v.Node? { LeavesOfAreLeaves(v, SortedKeys(v.entries.Keys), p, x); }
  }

  lemma {:induction false} LeavesOfAreLeaves(v: Tree, keys: seq<string>, p: Path, x: Tree)
    requires v.Node? && forall k | k in keys :: k in v.entries
    ensures Leaf(p, x) in LeavesOf(v, keys) <==> LeafAt(v, p) == Some(x) && p != [] && p[0] in keys
    decreases v, 0, |keys|
  {
    hide Leaves;
    if keys != [] {
      var k := keys[0];
      assert forall j | j in keys[1..] :: j in keys;
      assert keys == [k] + keys[1..];
      LeavesOfAreLeaves(v, keys[1..], p, x);
      UnderMembers(k, Leaves(v.entries[k]), p, x);
      if p != [] && p[0] == k { LeavesAreLeaves(v.entries[k], p[1..], x); }
    }
  }

  predicate PathLess(p: Path, q: Path) {
    q != [] && (p == [] || Less(p[0], q[0]) || (p[0] == q[0] && PathLess(p[1..], q[1..])))
  }

  lemma {:induction false} PathLessIsIrreflexive(p: Path)
    ensures !PathLess(p, p)
  {
    if p != [] {
      LessIsTotal(p[0], p[0]);
      PathLessIsIrreflexive(p[1..]);
    }
  }

  ghost predicate Ordered(leaves: seq<Leaf>) {
    forall i, j | 0 <= i < j < |leaves| :: PathLess(leaves[i].path, leaves[j].path)
  }

  /** The list is strictly ordered by path component; so it has each leaf once. */
  lemma {:induction false} LeavesAreOrdered(v: Tree)
    ensures Ordered(Leaves(v))
    decreases v, 1, 0
  {
    hide LeavesOf;
    if v.Node? { LeavesOfAreOrdered(v, SortedKeys(v.entries.Keys)); }
  }

  lemma UnderIsOrdered(k: string, leaves: seq<Leaf>)
    requires Ordered(leaves)
    ensures Ordered(Under(k, leaves))
  {
    var u := Under(k, leaves);
    forall i, j | 0 <= i < j < |u| ensures PathLess(u[i].path, u[j].path) {
      assert u[i].path[1..] == leaves[i].path && u[j].path[1..] == leaves[j].path;
    }
  }

  lemma {:induction false} LeavesOfAreOrdered(v: Tree, keys: seq<string>)
    requires v.Node? && Ascending(keys) && forall k | k in keys :: k in v.entries
    ensures Ordered(LeavesOf(v, keys))
    decreases v, 0, |keys|
  {
    hide Leaves, Less;
    if keys != [] {
      var k, rest := keys[0], LeavesOf(v, keys[1..]);
      assert forall j | j in keys[1..] :: j in keys;
      LeavesOfAreOrdered(v, keys[1..]);
      LeavesAreOrdered(v.entries[k]);
      var first := Under(k, Leaves(v.entries[k]));
      UnderIsOrdered(k, Leaves(v.entries[k]));
      forall i, j | 0 <= i < |first| && 0 <= j < |rest| ensures PathLess(first[i].path, rest[j].path) {
        assert rest[j] in rest;
        LeavesOfAreLeaves(v, keys[1..], rest[j].path, rest[j].value);
        var m :| 0 <= m < |keys[1..]| && keys[1..][m] == rest[j].path[0];
        assert Less(keys[0], keys[m + 1]);
      }
    }
  }

  // ---------- the overrides are the leaves ----------

  /** Keys that a dotted path can spell, and no empty map below the top. */
  predicate Spellable(v: Tree) {
    v.Node? ==>
      forall k | k in v.entries :: DotFree(k) && v.entries[k] != EMPTY && Spellable(v.entries[k])
  }

  predicate GoodPath(p: Path) {
    forall k | k in p :: DotFree(k)
  }

  function Rendered(p: Path, leaves: seq<Leaf>): (r: seq<Override>)
    ensures |r| == |leaves|
    ensures forall i | 0 <= i < |r| :: r[i] == Override(JoinDots(p + leaves[i].path), leaves[i].value)
  {
    seq(|leaves|, i requires 0 <= i < |leaves| => Override(JoinDots(p + leaves[i].path), leaves[i].value))
  }

  lemma JoinIsNotEmpty(p: Path)
    requires p != [] && p[0] != ""
    ensures JoinDots(p) != ""
  {
  }

  lemma ExtendedIsJoin(p: Path, k: string)
    requires p != [] ==> p[0] != ""
    ensures Extended(JoinDots(p), k) == JoinDots(p + [k])
  {
    if p == [] {
      assert [] + [k] == [k];
    } else {
      JoinIsNotEmpty(p);
      JoinSnoc(p, k);
    }
  }

  lemma RenderedUnder(p: Path, k: string, leaves: seq<Leaf>)
    ensures Rendered(p, Under(k, leaves)) == Rendered(p + [k], leaves)
  {
    forall i | 0 <= i < |leaves| ensures p + ([k] + leaves[i].path) == (p + [k]) + leaves[i].path {
    }
  }

  lemma {:induction false} FlattenIsRendered(p: Path, v: Tree)
    requires if p == [] then v.Node? && "" !in v.entries else p[0] != ""
    ensures Flatten(JoinDots(p), v) == Rendered(p, Leaves(v))
    decreases v, 1, 0
  {
    hide FlattenKeys, LeavesOf, JoinDots;
    if v.Node? {
      FlattenKeysIsRendered(p, v, SortedKeys(v.entries.Keys));
    } else {
      JoinIsNotEmpty(p);
      assert p + [] == p;
    }
  }

  lemma {:induction false} FlattenKeysIsRendered(p: Path, v: Tree, keys: seq<string>)
    requires v.Node? && (if p == [] then "" !in v.entries else p[0] != "") && forall k | k in keys :: k in v.entries
    ensures FlattenKeys(JoinDots(p), v, keys) == Rendered(p, LeavesOf(v, keys))
    decreases v, 0, |keys|
  {
    hide Flatten, Leaves, JoinDots;
    if keys != [] {
      var k := keys[0];
      assert forall j | j in keys[1..] :: j in keys;
      ExtendedIsJoin(p, k);
      FlattenIsRendered(p + [k], v.entries[k]);
      RenderedUnder(p, k, Leaves(v.entries[k]));
      FlattenKeysIsRendered(p, v, keys[1..]);
    }
  }

  // ---------- rebuilding ----------

  function Insert(v: Tree, p: Path, x: Tree): Tree
    decreases |p|
  {
    if p == [] then x
    else
      var entries := if v.Node? then v.entries else map[];
      Node(entries[p[0] := Insert(if p[0] in entries then entries[p[0]] else EMPTY, p[1..], x)])
  }

  function Rebuild(overrides: seq<Override>): Tree {
    if overrides == [] then EMPTY
    else
      var last := overrides[|overrides| - 1];
      Insert(Rebuild(overrides[..|overrides| - 1]), SplitDots(last.path), last.leaf)
  }

  /** Nothing in `v` is in the way of a leaf at `p`. */
  ghost predicate Free(v: Tree, p: Path) {
    !IsMapAt(v, p) && forall i | 0 <= i < |p| :: LeafAt(v, p[..i]).None?
  }

  lemma FreeBelow(v: Tree, p: Path)
    requires p != [] && Free(v, p) && v.Node?
    ensures Free(if p[0] in v.entries then v.entries[p[0]] else EMPTY, p[1..]) || (p[0] !in v.entries && |p| == 1)
  {
    var k, q := p[0], p[1..];
    assert p == [k] + q;
    if k in v.entries {
      AtStep(v, k, q);
      forall i | 0 <= i < |q| ensures LeafAt(v.entries[k], q[..i]).None? {
        assert p[..i + 1] == [k] + q[..i];
        AtStep(v, k, q[..i]);
        assert LeafAt(v, p[..i + 1]).None?;
      }
    }
  }

  predicate ProperPrefix(q: Path, p: Path) {
    |q| < |p| && q == p[..|q|]
  }

  lemma {:induction false} InsertedPaths(v: Tree, p: Path, x: Tree, q: Path)
    requires !x.Node? && (p == [] || (v.Node? && Free(v, p)))
    ensures q == p ==> LeafAt(Insert(v, p, x), q) == Some(x)
    ensures q != p && p != [] ==> LeafAt(Insert(v, p, x), q) == LeafAt(v, q)
    ensures p != [] ==> (IsMapAt(Insert(v, p, x), q) <==> IsMapAt(v, q) || ProperPrefix(q, p))
    decreases |p|
  {
    hide Free;
    var w := Insert(v, p, x);
    if p != [] && q != [] {
      var k, r, s := p[0], p[1..], q[1..];
      assert p == [k] + r && q == [q[0]] + s;
      AtStep(w, q[0], s);
      AtStep(v, q[0], s);
      PrefixBelow(q, p);
      FreeBelow(v, p);
      if q[0] == k {
        var child := if k in v.entries then v.entries[k] else EMPTY;
        if r != [] { assert child.Node? by { ChildIsNode(v, p); } }
        InsertedPaths(child, r, x, s);
        if r == [] { LeafOrNothing(v, p); }
        EmptyHasOnlyItself(s);
      }
    } else if p != [] {
      assert ProperPrefix(q, p);
    }
  }

  lemma PrefixBelow(q: Path, p: Path)
    requires q != [] && p != []
    ensures ProperPrefix(q, p) <==> q[0] == p[0] && ProperPrefix(q[1..], p[1..])
  {
    if ProperPrefix(q, p) {
      assert q[1..] == p[1..][..|q| - 1];
    }
    if q[0] == p[0] && ProperPrefix(q[1..], p[1..]) {
      assert q == [q[0]] + q[1..] && p == [p[0]] + p[1..];
    }
  }

  lemma ChildIsNode(v: Tree, p: Path)
    requires |p| > 1 && v.Node? && Free(v, p)
    ensures p[0] in v.entries ==> v.entries[p[0]].Node?
  {
    assert LeafAt(v, p[..1]).None?;
    assert p[..1] == [p[0]] + [];
    AtStep(v, p[0], []);
  }

  lemma LeafOrNothing(v: Tree, p: Path)
    requires |p| == 1 && v.Node? && Free(v, p)
    ensures p[0] in v.entries ==> !v.entries[p[0]].Node?
  {
    assert p == [p[0]] + [];
    AtStep(v, p[0], []);
  }

  lemma EmptyHasOnlyItself(s: Path)
    ensures s != [] ==> At(EMPTY, s) == None
    ensures LeafAt(EMPTY, s) == None
  {
  }

  function RebuildLeaves(leaves: seq<Leaf>): Tree {
    if leaves == [] then EMPTY
    else Insert(RebuildLeaves(leaves[..|leaves| - 1]), leaves[|leaves| - 1].path, leaves[|leaves| - 1].value)
  }

  lemma {:induction false} RebuildRendered(v: Tree, leaves: seq<Leaf>)
    requires forall l | l in leaves :: l.path != [] && GoodPath(l.path)
    ensures Rebuild(Rendered([], leaves)) == RebuildLeaves(leaves)
    decreases |leaves|
  {
    if leaves != [] {
      var n := |leaves| - 1;
      var last := leaves[n];
      assert Rendered([], leaves)[..n] == Rendered([], leaves[..n]);
      RebuildRendered(v, leaves[..n]);
      assert [] + last.path == last.path;
      assert last in leaves;
      SplitOfJoin(last.path);
    }
  }

  /** The leaves come from one tree, each once, and none is the top. */
  ghost predicate FromTree(v: Tree, leaves: seq<Leaf>) {
    && (forall l | l in leaves :: LeafAt(v, l.path) == Some(l.value) && l.path != [])
    && (forall i, j | 0 <= i < j < |leaves| :: leaves[i].path != leaves[j].path)
  }

  ghost predicate HasLeaf(leaves: seq<Leaf>, q: Path) {
    exists l :: l in leaves && l.path == q
  }

  ghost predicate HasBelow(leaves: seq<Leaf>, q: Path) {
    exists l :: l in leaves && ProperPrefix(q, l.path)
  }

  lemma SnocLeaf(leaves: seq<Leaf>, last: Leaf, q: Path)
    ensures HasLeaf(leaves + [last], q) <==> HasLeaf(leaves, q) || last.path == q
    ensures HasBelow(leaves + [last], q) <==> HasBelow(leaves, q) || ProperPrefix(q, last.path)
  {
    var all := leaves + [last];
    assert last in all && forall l | l in leaves :: l in all;
  }

  lemma LeafHasNothingBelow(v: Tree, p: Path, q: Path)
    requires LeafAt(v, p).Some? && ProperPrefix(p, q)
    ensures At(v, q) == None
    decreases |p|
  {
    if p != [] {
      PrefixBelow(p, q);
      LeafHasNothingBelow(v.entries[p[0]], p[1..], q[1..]);
    }
  }

  lemma {:induction false} RebuiltPaths(v: Tree, leaves: seq<Leaf>, q: Path)
    requires FromTree(v, leaves)
    ensures RebuildLeaves(leaves).Node?
    ensures LeafAt(RebuildLeaves(leaves), q) == if HasLeaf(leaves, q) then LeafAt(v, q) else None
    ensures IsMapAt(RebuildLeaves(leaves), q) <==> q == [] || HasBelow(leaves, q)
    decreases |leaves|, 0
  {
    hide LeafAt, IsMapAt, HasLeaf, HasBelow, ProperPrefix;
    if leaves == [] {
      NothingRebuilt(q);
    } else {
      var n := |leaves| - 1;
      var g, last := leaves[..n], leaves[n];
      assert leaves == g + [last] && last in leaves;
      assert FromTree(v, g) by { assert forall l | l in g :: l in leaves; }
      RebuiltPaths(v, g, q);
      SnocLeaf(g, last, q);
      assert Free(RebuildLeaves(g), last.path) by { LastIsFree(v, g, last); }
      LeafIsNoMap(v, last);
      InsertedPaths(RebuildLeaves(g), last.path, last.value, q);
    }
  }

  lemma NothingRebuilt(q: Path)
    ensures LeafAt(EMPTY, q) == None && (IsMapAt(EMPTY, q) <==> q == [])
    ensures !HasLeaf([], q) && !HasBelow([], q)
  {
  }

  lemma LeafIsNoMap(v: Tree, l: Leaf)
    requires LeafAt(v, l.path) == Some(l.value)
    ensures !l.value.Node?
  {
  }

  lemma LastIsFree(v: Tree, g: seq<Leaf>, last: Leaf)
    requires FromTree(v, g) && LeafAt(v, last.path) == Some(last.value) && last.path != []
    ensures Free(RebuildLeaves(g), last.path)
    decreases |g|, 1
  {
    hide RebuildLeaves, LeafAt;
    var p := last.path;
    RebuiltPaths(v, g, p);
    if HasBelow(g, p) {
      var l :| l in g && ProperPrefix(p, l.path);
      LeafHasNothingBelow(v, p, l.path);
      LeafFound(v, l.path);
      assert false;
    }
    forall i | 0 <= i < |p| ensures LeafAt(RebuildLeaves(g), p[..i]).None? {
      RebuiltPaths(v, g, p[..i]);
      if LeafAt(v, p[..i]).Some? {
        assert ProperPrefix(p[..i], p);
        LeafHasNothingBelow(v, p[..i], p);
        LeafFound(v, p);
        assert false;
      }
    }
  }

  lemma LeafFound(v: Tree, p: Path)
    ensures LeafAt(v, p).Some? ==> At(v, p).Some?
  {
  }

  lemma NoKeys(entries: map<string, Tree>)
    requires entries.Keys == {}
    ensures entries == map[]
  {
  }

  lemma {:induction false} MapHasLeaf(v: Tree) returns (p: Path)
    requires v.Node? && v != EMPTY && Spellable(v)
    ensures p != [] && LeafAt(v, p).Some?
    decreases v
  {
    if v.entries.Keys == {} { NoKeys(v.entries); }
    var k :| k in v.entries;
    if v.entries[k].Node? {
      var q := MapHasLeaf(v.entries[k]);
      AtStep(v, k, q);
      p := [k] + q;
    } else {
      AtStep(v, k, []);
      p := [k] + [];
    }
  }

  lemma {:induction false} InnerMapHasLeaf(v: Tree, q: Path) returns (p: Path)
    requires Spellable(v) && v != EMPTY && IsMapAt(v, q)
    ensures ProperPrefix(q, p) && LeafAt(v, p).Some?
    decreases |q|
  {
    if q == [] {
      p := MapHasLeaf(v);
    } else {
      var r := InnerMapHasLeaf(v.entries[q[0]], q[1..]);
      AtStep(v, q[0], r);
      p := [q[0]] + r;
      assert p[1..] == r;
      PrefixBelow(q, p);
    }
  }

  lemma {:induction false} AboveLeafIsMap(v: Tree, q: Path, p: Path)
    requires LeafAt(v, p).Some? && ProperPrefix(q, p)
    ensures IsMapAt(v, q)
    decreases |q|
  {
    if q != [] {
      PrefixBelow(q, p);
      AboveLeafIsMap(v.entries[q[0]], q[1..], p[1..]);
    }
  }

  lemma {:induction false} LeafPathIsGood(v: Tree, p: Path)
    requires Spellable(v) && At(v, p).Some?
    ensures GoodPath(p)
    decreases |p|
  {
    if p != [] {
      LeafPathIsGood(v.entries[p[0]], p[1..]);
      assert p == [p[0]] + p[1..];
    }
  }

  lemma LeavesComeFromTree(v: Tree)
    requires v.Node?
    ensures FromTree(v, Leaves(v))
  {
    hide Leaves;
    var leaves := Leaves(v);
    LeavesAreOrdered(v);
    forall l | l in leaves ensures LeafAt(v, l.path) == Some(l.value) && l.path != [] {
      LeavesAreLeaves(v, l.path, l.value);
    }
    forall i, j | 0 <= i < j < |leaves| ensures leaves[i].path != leaves[j].path {
      PathLessIsIrreflexive(leaves[i].path);
    }
  }

  lemma RebuiltMaps(v: Tree, q: Path)
    requires v.Node? && Spellable(v)
    ensures IsMapAt(v, q) <==> q == [] || HasBelow(Leaves(v), q)
    ensures HasLeaf(Leaves(v), q) <==> LeafAt(v, q).Some?
  {
    hide Leaves, ProperPrefix, Spellable;
    if IsMapAt(v, q) && q != [] {
      assert v != EMPTY;
      var p := InnerMapHasLeaf(v, q);
      LeavesAreLeaves(v, p, LeafAt(v, p).value);
      assert Leaf(p, LeafAt(v, p).value).path == p;
    }
    if HasBelow(Leaves(v), q) {
      var l :| l in Leaves(v) && ProperPrefix(q, l.path);
      LeavesAreLeaves(v, l.path, l.value);
      AboveLeafIsMap(v, q, l.path);
    }
    if LeafAt(v, q).Some? {
      LeavesAreLeaves(v, q, LeafAt(v, q).value);
      assert Leaf(q, LeafAt(v, q).value).path == q;
    }
    if HasLeaf(Leaves(v), q) {
      var l :| l in Leaves(v) && l.path == q;
      LeavesAreLeaves(v, q, l.value);
    }
  }

  lemma FlattenIsInvertible(v: Tree)
    requires v.Node? && Spellable(v) && "" !in v.entries
    ensures Rebuild(Flatten("", v)) == v
  {
    hide Flatten, Leaves, Rebuild, RebuildLeaves, LeafAt, IsMapAt, HasLeaf, HasBelow, FromTree;
    FlattenIsRendered([], v);
    LeavesComeFromTree(v);
    forall l | l in Leaves(v) ensures l.path != [] && GoodPath(l.path) {
      LeavesAreLeaves(v, l.path, l.value);
      LeafFound(v, l.path);
      LeafPathIsGood(v, l.path);
      assert FromTree(v, Leaves(v));
      FromTreeLeaf(v, Leaves(v), l);
    }
    RebuildRendered(v, Leaves(v));
    forall q
      ensures LeafAt(RebuildLeaves(Leaves(v)), q) == LeafAt(v, q)
      ensures IsMapAt(RebuildLeaves(Leaves(v)), q) <==> IsMapAt(v, q)
    {
      RebuiltPaths(v, Leaves(v), q);
      RebuiltMaps(v, q);
    }
    PathsDetermineValue(RebuildLeaves(Leaves(v)), v);
  }

  lemma FromTreeLeaf(v: Tree, leaves: seq<Leaf>, l: Leaf)
    requires FromTree(v, leaves) && l in leaves
    ensures l.path != []
  {
  }

  predicate NoLeadingDot(s: string) {
    s == "" || s[0] != '.'
  }

  predicate Possible(o: Override, prefix: string, v: Tree) {
    !o.leaf.Node? && o.path != "" && (Spellable(v) && NoLeadingDot(prefix) ==> NoLeadingDot(o.path))
  }

  lemma {:induction false} OverridesArePossible(prefix: string, v: Tree, o: Override)
    requires o in Flatten(prefix, v)
    ensures Possible(o, prefix, v)
    decreases v, 1, 0
  {
    hide FlattenKeys;
    if v.Node? { OverridesOfKeysArePossible(prefix, v, SortedKeys(v.entries.Keys), o); }
  }

  lemma {:induction false} OverridesOfKeysArePossible(prefix: string, v: Tree, keys: seq<string>, o: Override)
    requires v.Node? && (forall k | k in keys :: k in v.entries) && o in FlattenKeys(prefix, v, keys)
    ensures Possible(o, prefix, v)
    decreases v, 0, |keys|
  {
    hide Flatten;
    var k := keys[0];
    assert forall j | j in keys[1..] :: j in keys;
    if o in Flatten(Extended(prefix, k), v.entries[k]) {
      OverridesArePossible(Extended(prefix, k), v.entries[k], o);
    } else {
      OverridesOfKeysArePossible(prefix, v, keys[1..], o);
    }
  }

  lemma {:induction false} SplitsAreDotFree(s: string)
    ensures forall f | f in SplitDots(s) :: DotFree(f)
    ensures s != "" && NoLeadingDot(s) ==> SplitDots(s)[0] != ""
  {
    if s != "" {
      SplitsAreDotFree(s[1..]);
      var rest := SplitDots(s[1..]);
      assert rest == [rest[0]] + rest[1..] && DotFree(rest[0]);
    }
  }

  lemma {:induction false} InsertedIsSpellable(v: Tree, p: Path, x: Tree)
    requires Spellable(v) && GoodPath(p) && !x.Node?
    ensures Spellable(Insert(v, p, x)) && Insert(v, p, x) != EMPTY
    decreases |p|
  {
    if p != [] {
      var k := p[0];
      assert p == [k] + p[1..];
      var child := if v.Node? && k in v.entries then v.entries[k] else EMPTY;
      InsertedIsSpellable(child, p[1..], x);
      assert k in Insert(v, p, x).entries;
    }
  }

  /** Whatever is rebuilt can be spelled, and has no empty key at the top unless some path starts with a dot. */
  lemma {:induction false} RebuiltIsSpellable(overrides: seq<Override>)
    requires forall o | o in overrides :: !o.leaf.Node? && o.path != ""
    ensures Spellable(Rebuild(overrides)) && Rebuild(overrides).Node?
    ensures (forall o | o in overrides :: NoLeadingDot(o.path)) ==> "" !in Rebuild(overrides).entries
    decreases |overrides|
  {
    hide Spellable, Insert, NoLeadingDot;
    if overrides == [] {
      EmptyIsSpellable();
    } else {
      var some, last := overrides[..|overrides| - 1], overrides[|overrides| - 1];
      assert last in overrides && forall o | o in some :: o in overrides;
      RebuiltIsSpellable(some);
      SplitsAreDotFree(last.path);
      InsertedIsSpellable(Rebuild(some), SplitDots(last.path), last.leaf);
      InsertedTop(Rebuild(some), SplitDots(last.path), last.leaf);
    }
  }

  lemma EmptyIsSpellable()
    ensures Spellable(EMPTY)
  {
  }

  lemma InsertedTop(v: Tree, p: Path, x: Tree)
    requires v.Node? && p != []
    ensures Insert(v, p, x).Node? && Insert(v, p, x).entries.Keys == v.entries.Keys + {p[0]}
  {
  }

  /**
   Rebuilding from the emitted overrides gives the original configuration exactly when no key has a dot, no inner
   map is empty and no key at the top is empty.
   */
  lemma FlattenIsInvertibleExactly(v: Tree)
    requires v.Node?
    ensures Rebuild(Flatten("", v)) == v <==> Spellable(v) && "" !in v.entries
  {
    hide Flatten, Rebuild, Spellable;
    if Spellable(v) && "" !in v.entries {
      FlattenIsInvertible(v);
    }
    var overrides := Flatten("", v);
    forall o | o in overrides ensures Possible(o, "", v) { OverridesArePossible("", v, o); }
    RebuiltIsSpellable(overrides);
  }

  /**
   The overrides of a configuration without an empty key at the top: the dotted paths of its leaves, each leaf exactly
   once, strictly ordered by path component.
   */
  lemma OverridesAreTheLeaves(v: Tree)
    requires v.Node? && "" !in v.entries
    ensures Flatten("", v) == Rendered([], Leaves(v)) && Ordered(Leaves(v))
    ensures forall p, x :: Leaf(p, x) in Leaves(v) <==> LeafAt(v, p) == Some(x)
  {
    hide Flatten, Leaves, LeafAt;
    FlattenIsRendered([], v);
    LeavesAreOrdered(v);
    forall p, x ensures Leaf(p, x) in Leaves(v) <==> LeafAt(v, p) == Some(x) { LeavesAreLeaves(v, p, x); }
  }

  /** The empty keys from the top down end in a leaf. */
  predicate HasNamelessLeaf(v: Tree) {
    !v.Node? || ("" in v.entries && HasNamelessLeaf(v.entries[""]))
  }

  lemma {:induction false} OverrideCount(prefix: string, v: Tree)
    ensures |Flatten(prefix, v)| == |Leaves(v)| - (if prefix == "" && HasNamelessLeaf(v) then 1 else 0)
    decreases v, 1, 0
  {
    hide FlattenKeys, LeavesOf;
    if v.Node? { OverrideCountOf(prefix, v, SortedKeys(v.entries.Keys)); }
  }

  lemma {:induction false} OverrideCountOf(prefix: string, v: Tree, keys: seq<string>)
    requires v.Node? && Ascending(keys) && forall k | k in keys :: k in v.entries
    ensures |FlattenKeys(prefix, v, keys)| == |LeavesOf(v, keys)|
      - (if prefix == "" && "" in keys && HasNamelessLeaf(v.entries[""]) then 1 else 0)
    decreases v, 0, |keys|
  {
    hide Flatten, Leaves, Less, HasNamelessLeaf;
    if keys != [] {
      var k := keys[0];
      assert forall j | j in keys[1..] :: j in keys;
      OverrideCount(Extended(prefix, k), v.entries[k]);
      OverrideCountOf(prefix, v, keys[1..]);
      TailMembers(keys, "");
    }
  }

  /** Every leaf has its override, exactly when no leaf lies under empty keys alone. */
  lemma OneOverridePerLeafExactly(v: Tree)
    ensures |Flatten("", v)| == |Leaves(v)| <==> !HasNamelessLeaf(v)
  {
    hide Flatten, Leaves;
    OverrideCount("", v);
  }
}
