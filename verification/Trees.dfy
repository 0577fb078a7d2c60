/** Nested string-keyed maps as the Go code passes them around, and what is found at a path. */
module Trees {
  import opened Options

  /** A map[string]any, or a value in one: text, anything else that is no map, or a map. */
  datatype Tree = Text(text: string) | Other(raw: string) | Node(entries: map<string, Tree>)

  type Path = seq<string>

  const EMPTY := Node(map[])

  function At(v: Tree, p: Path): Option<Tree>
    decreases |p|
  {
    if p == [] then Some(v)
    else if v.Node? && p[0] in v.entries then At(v.entries[p[0]], p[1..])
    else None
  }

  function LeafAt(v: Tree, p: Path): Option<Tree> {
    var found := At(v, p);
    if found.Some? && !found.value.Node? then found else None
  }

  predicate IsMapAt(v: Tree, p: Path) {
    var found := At(v, p);
    found.Some? && found.value.Node?
  }

  ghost predicate SamePaths(v: Tree, w: Tree) {
    forall p :: LeafAt(v, p) == LeafAt(w, p) && (IsMapAt(v, p) <==> IsMapAt(w, p))
  }

  lemma AtStep(v: Tree, k: string, p: Path)
    requires v.Node?
    ensures At(v, [k] + p) == if k in v.entries then At(v.entries[k], p) else None
  {
    assert ([k] + p)[1..] == p;
  }

  lemma KeyIsFound(v: Tree, k: string)
    requires v.Node?
    ensures k in v.entries <==> LeafAt(v, [k]).Some? || IsMapAt(v, [k])
  {
    AtStep(v, k, []);
    assert [k] + [] == [k];
  }

  lemma SamePathsBelow(v: Tree, w: Tree, k: string)
    requires SamePaths(v, w) && v.Node? && w.Node? && k in v.entries && k in w.entries
    ensures SamePaths(v.entries[k], w.entries[k])
  {
    forall p
      ensures LeafAt(v.entries[k], p) == LeafAt(w.entries[k], p)
      ensures IsMapAt(v.entries[k], p) <==> IsMapAt(w.entries[k], p)
    {
      AtStep(v, k, p);
      AtStep(w, k, p);
      assert LeafAt(v, [k] + p) == LeafAt(w, [k] + p) && (IsMapAt(v, [k] + p) <==> IsMapAt(w, [k] + p));
    }
  }

  /** Values with the same leaves and the same maps at every path are equal. */
  lemma {:induction false} PathsDetermineValue(v: Tree, w: Tree)
    requires SamePaths(v, w)
    ensures v == w
    decreases v
  {
    assert LeafAt(v, []) == LeafAt(w, []) && (IsMapAt(v, []) <==> IsMapAt(w, []));
    if v.Node? {
      forall k ensures k in v.entries <==> k in w.entries {
        KeyIsFound(v, k);
        KeyIsFound(w, k);
        assert LeafAt(v, [k]) == LeafAt(w, [k]) && (IsMapAt(v, [k]) <==> IsMapAt(w, [k]));
      }
      forall k | k in v.entries ensures v.entries[k] == w.entries[k] {
        SamePathsBelow(v, w, k);
        PathsDetermineValue(v.entries[k], w.entries[k]);
      }
      assert v.entries == w.entries;
    }
  }
}
