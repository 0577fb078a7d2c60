/** The search for descendant processes: a stack, no record of what was visited, over a table of pids and parents. */
module ProcessTree {

  /** The lines of ps that parse as two numbers. */
  datatype Entry = Entry(pid: int, ppid: int)

  ghost predicate OneParentEach(table: seq<Entry>) {
    forall i, j | 0 <= i < j < |table| :: table[i].pid != table[j].pid
  }

  /** children[ppid], in the order of the table. */
  function Children(table: seq<Entry>, ppid: int): seq<int> {
    if table == [] then []
    else
      var last := table[|table| - 1];
      Children(table[..|table| - 1], ppid) + (if last.ppid == ppid then [last.pid] else [])
  }

  predicate IsParent(table: seq<Entry>, pid: int, ppid: int) {
    Entry(pid, ppid) in table
  }

  /** `pid` is `n` generations below `root`. */
  ghost predicate Below(table: seq<Entry>, root: int, pid: int, n: nat)
    decreases n
  {
    if n == 0 then pid == root else exists parent :: IsParent(table, pid, parent) && Below(table, root, parent, n - 1)
  }

  ghost predicate Descendant(table: seq<Entry>, root: int, pid: int) {
    exists n: nat :: n > 0 && Below(table, root, pid, n)
  }

  lemma {:induction false} ChildrenAreChildren(table: seq<Entry>, pid: int, ppid: int)
    ensures pid in Children(table, ppid) <==> IsParent(table, pid, ppid)
  {
    if table != [] {
      var g, last := table[..|table| - 1], table[|table| - 1];
      assert table == g + [last];
      ChildrenAreChildren(g, pid, ppid);
    }
  }

  lemma UniqueParent(table: seq<Entry>, pid: int, a: int, b: int)
    requires OneParentEach(table) && IsParent(table, pid, a) && IsParent(table, pid, b)
    ensures a == b
  {
    var i :| 0 <= i < |table| && table[i] == Entry(pid, a);
    var j :| 0 <= j < |table| && table[j] == Entry(pid, b);
  }

  ghost predicate Distinct(s: seq<int>) {
    forall i, j | 0 <= i < j < |s| :: s[i] != s[j]
  }

  lemma LastPidIsNew(table: seq<Entry>)
    requires OneParentEach(table) && table != []
    ensures forall e | e in table[..|table| - 1] :: e.pid != table[|table| - 1].pid
  {
  }

  lemma {:induction false} ChildrenAreDistinct(table: seq<Entry>, ppid: int)
    requires OneParentEach(table)
    ensures Distinct(Children(table, ppid))
  {
    if table != [] {
      var g, last := table[..|table| - 1], table[|table| - 1];
      ChildrenAreDistinct(g, ppid);
      LastPidIsNew(table);
      ChildrenAreChildren(g, last.pid, ppid);
    }
  }

  lemma ChildIsDescendant(table: seq<Entry>, root: int, pid: int, parent: int)
    requires IsParent(table, pid, parent) && (parent == root || Descendant(table, root, parent))
    ensures Descendant(table, root, pid)
  {
    if parent == root {
      assert Below(table, root, parent, 0);
      assert Below(table, root, pid, 1);
    } else {
      var n: nat :| n > 0 && Below(table, root, parent, n);
      assert Below(table, root, pid, n + 1);
    }
  }

  function Pids(table: seq<Entry>): set<int> {
    set i | 0 <= i < |table| :: table[i].pid
  }

  // ---------- the search ----------

  /** What the search has found and what is left on the stack. */
  ghost predicate SearchOk(table: seq<Entry>, root: int, stack: seq<int>, found: seq<int>) {
    && Distinct(found) && Distinct(stack) && (forall p | p in found :: p !in stack)
    && (forall p | p in found || p in stack :: Reached(table, root, found, p))
    && (forall p, c | (p == root || p in found) && IsParent(table, c, p) :: c in found || c in stack)
  }

  ghost predicate Reached(table: seq<Entry>, root: int, found: seq<int>, p: int) {
    && Descendant(table, root, p) && p in Pids(table)
    && exists parent :: IsParent(table, p, parent) && (parent == root || parent in found)
  }

  lemma ChildIsReached(table: seq<Entry>, root: int, found: seq<int>, c: int, p: int)
    requires IsParent(table, c, p) && (p == root || (p in found && Descendant(table, root, p)))
    ensures Reached(table, root, found, c)
  {
    ChildIsDescendant(table, root, c, p);
    var i :| 0 <= i < |table| && table[i] == Entry(c, p);
  }

  lemma SearchStarts(table: seq<Entry>, root: int)
    requires OneParentEach(table)
    ensures SearchOk(table, root, Children(table, root), [])
  {
    hide Reached, Children;
    var stack := Children(table, root);
    ChildrenAreDistinct(table, root);
    forall p | p in stack ensures Reached(table, root, [], p) {
      ChildrenAreChildren(table, p, root);
      ChildIsReached(table, root, [], p, root);
    }
    forall c | IsParent(table, c, root) ensures c in stack { ChildrenAreChildren(table, c, root); }
  }

  /** With one parent each and no way back to the root, the children of what is popped have not been seen. */
  lemma NewChild(table: seq<Entry>, root: int, stack: seq<int>, found: seq<int>, pid: int, c: int)
    requires OneParentEach(table) && !Descendant(table, root, root) && SearchOk(table, root, stack, found)
    requires pid in stack && IsParent(table, c, pid)
    ensures c !in found && c !in stack
  {
    assert pid !in found && Descendant(table, root, pid);
    if c in found || c in stack {
      assert Reached(table, root, found, c);
      var parent :| IsParent(table, c, parent) && (parent == root || parent in found);
      UniqueParent(table, c, pid, parent);
    }
  }

  lemma MoreFound(table: seq<Entry>, root: int, found: seq<int>, pid: int, p: int)
    requires Reached(table, root, found, p)
    ensures Reached(table, root, found + [pid], p)
  {
    hide Descendant;
    var parent :| IsParent(table, p, parent) && (parent == root || parent in found);
    assert parent in found ==> parent in found + [pid];
  }

  lemma DistinctAppend(a: seq<int>, b: seq<int>)
    requires Distinct(a) && Distinct(b) && forall c | c in b :: c !in a
    ensures Distinct(a + b)
  {
    var s := a + b;
    forall i, j | 0 <= i < j < |s| ensures s[i] != s[j] {
      if i < |a| && j >= |a| { assert s[j] in b && s[i] in a; }
    }
  }

  lemma PopIsDistinct(stack: seq<int>)
    requires stack != [] && Distinct(stack)
    ensures var pid, rest := stack[|stack| - 1], stack[..|stack| - 1];
      Distinct(rest) && pid !in rest && forall p :: p in stack <==> p == pid || p in rest
  {
    var pid, rest := stack[|stack| - 1], stack[..|stack| - 1];
    assert stack == rest + [pid];
  }

  lemma SearchSteps(table: seq<Entry>, root: int, stack: seq<int>, found: seq<int>)
    requires OneParentEach(table) && !Descendant(table, root, root) && stack != [] && SearchOk(table, root, stack, found)
    ensures var pid := stack[|stack| - 1];
      SearchOk(table, root, stack[..|stack| - 1] + Children(table, pid), found + [pid])
  {
    hide Descendant, Reached, Children, Distinct;
    var pid, rest := stack[|stack| - 1], stack[..|stack| - 1];
    var children := Children(table, pid);
    PopIsDistinct(stack);
    ChildrenAreDistinct(table, pid);
    forall c | c in children
      ensures c !in found && c !in stack && Reached(table, root, found + [pid], c)
    {
      ChildrenAreChildren(table, c, pid);
      NewChild(table, root, stack, found, pid, c);
      ReachedIsDescendant(table, root, found, pid);
      ChildIsReached(table, root, found + [pid], c, pid);
    }
    DistinctAppend(rest, children);
    OneIsDistinct(pid);
    DistinctAppend(found, [pid]);
    forall p | p in found || p in stack ensures Reached(table, root, found + [pid], p) {
      MoreFound(table, root, found, pid, p);
    }
    forall p, c | (p == root || p in found + [pid]) && IsParent(table, c, p)
      ensures c in found || c == pid || c in rest || c in children
    {
      ChildrenAreChildren(table, c, p);
      assert p == root || p in found || p == pid;
    }
  }

  lemma OneIsDistinct(pid: int)
    ensures Distinct([pid])
  {
  }

  lemma ReachedIsDescendant(table: seq<Entry>, root: int, found: seq<int>, p: int)
    requires Reached(table, root, found, p)
    ensures Descendant(table, root, p) && p in Pids(table)
  {
  }

  /** When the stack is empty, everything below the root has been found. */
  lemma {:induction false} SearchEnds(table: seq<Entry>, root: int, found: seq<int>, p: int, n: nat)
    requires SearchOk(table, root, [], found) && n > 0 && Below(table, root, p, n)
    ensures p in found
    decreases n
  {
    var parent :| IsParent(table, p, parent) && Below(table, root, parent, n - 1);
    if n > 1 { SearchEnds(table, root, found, parent, n - 1); }
  }

  lemma {:induction false} DistinctSetSize(s: seq<int>) returns (elements: set<int>)
    requires Distinct(s)
    ensures |elements| == |s| && forall p :: p in elements <==> p in s
  {
    if s == [] {
      elements := {};
    } else {
      var n := |s| - 1;
      PopIsDistinct(s);
      elements := DistinctSetSize(s[..n]);
      elements := elements + {s[n]};
    }
  }

  lemma SubsetSize(a: set<int>, b: set<int>)
    requires a <= b
    ensures |a| <= |b|
  {
    assert b == a + (b - a);
  }

  lemma FoundIsBounded(table: seq<Entry>, root: int, stack: seq<int>, found: seq<int>)
    requires SearchOk(table, root, stack, found)
    ensures |found| <= |Pids(table)|
  {
    var elements := DistinctSetSize(found);
    forall p | p in elements ensures p in Pids(table) { assert Reached(table, root, found, p); }
    SubsetSize(elements, Pids(table));
  }

  /**
   descendantPIDs over a table in which each pid has one parent and the root is not below itself: the loop ends,
   and finds every process below the root exactly once and nothing else.
   */
  method DescendantPIDs(table: seq<Entry>, root: int) returns (found: seq<int>)
    requires OneParentEach(table) && !Descendant(table, root, root)
    ensures root <= 0 ==> found == []
    ensures root > 0 ==> Distinct(found) && forall p :: p in found <==> Descendant(table, root, p)
  {
    hide Descendant, Reached;
    found := [];
    if root <= 0 {
      return;
    }
    var stack := Children(table, root);
    SearchStarts(table, root);
    while |stack| > 0
      invariant SearchOk(table, root, stack, found)
      decreases |Pids(table)| - |found|
    {
      var pid := stack[|stack| - 1];
      SearchSteps(table, root, stack, found);
      stack := stack[..|stack| - 1];
      found := found + [pid];
      stack := stack + Children(table, pid);
      FoundIsBounded(table, root, stack, found);
    }
    assert stack == [];
    forall p ensures p in found <==> Descendant(table, root, p) { FoundExactly(table, root, found, p); }
  }

  lemma FoundExactly(table: seq<Entry>, root: int, found: seq<int>, p: int)
    requires SearchOk(table, root, [], found)
    ensures p in found <==> Descendant(table, root, p)
  {
    if p in found { assert Reached(table, root, found, p); }
    if Descendant(table, root, p) {
      var n: nat :| n > 0 && Below(table, root, p, n);
      SearchEnds(table, root, found, p, n);
    }
  }

  // ---------- when it does not end ----------

  /** The stack after `n` rounds of the loop. */
  function StackAfter(table: seq<Entry>, root: int, n: nat): seq<int> {
    if n == 0 then Children(table, root)
    else
      var s := StackAfter(table, root, n - 1);
      if s == [] then [] else s[..|s| - 1] + Children(table, s[|s| - 1])
  }

  /** Something on the stack has the root below it. */
  ghost predicate LeadsBack(table: seq<Entry>, root: int, stack: seq<int>) {
    exists p, n: nat :: p in stack && Below(table, p, root, n)
  }

  lemma {:induction false} FirstStep(table: seq<Entry>, root: int, pid: int, n: nat) returns (c: int)
    requires n > 0 && Below(table, root, pid, n)
    ensures IsParent(table, c, root) && Below(table, c, pid, n - 1)
    decreases n
  {
    var parent :| IsParent(table, pid, parent) && Below(table, root, parent, n - 1);
    if n == 1 {
      c := pid;
    } else {
      c := FirstStep(table, root, parent, n - 1);
      assert Below(table, c, pid, n - 1);
    }
  }

  lemma RoundLeadsBack(table: seq<Entry>, root: int, stack: seq<int>)
    requires Descendant(table, root, root) && LeadsBack(table, root, stack)
    ensures stack != [] && LeadsBack(table, root, stack[..|stack| - 1] + Children(table, stack[|stack| - 1]))
  {
    var p, n: nat :| p in stack && Below(table, p, root, n);
    var last, rest := stack[|stack| - 1], stack[..|stack| - 1];
    assert stack == rest + [last];
    if p in rest {
      assert p in rest + Children(table, last);
    } else {
      var c, m := root, n;
      if n == 0 {
        var k: nat :| k > 0 && Below(table, root, root, k);
        c := FirstStep(table, root, root, k);
        m := k - 1;
      } else {
        c := FirstStep(table, p, root, n);
        m := n - 1;
      }
      ChildrenAreChildren(table, c, last);
      assert c in rest + Children(table, last) && Below(table, c, root, m);
    }
  }

  lemma StartLeadsBack(table: seq<Entry>, root: int)
    requires Descendant(table, root, root)
    ensures LeadsBack(table, root, Children(table, root))
  {
    var k: nat :| k > 0 && Below(table, root, root, k);
    var c := FirstStep(table, root, root, k);
    ChildrenAreChildren(table, c, root);
  }

  /** If the root is below itself the loop never ends: after any number of rounds something is on the stack. */
  lemma {:induction false} NeverEndsOnACycle(table: seq<Entry>, root: int, n: nat)
    requires Descendant(table, root, root)
    ensures StackAfter(table, root, n) != [] && LeadsBack(table, root, StackAfter(table, root, n))
  {
    hide Descendant, LeadsBack, Children;
    if n == 0 {
      StartLeadsBack(table, root);
      RoundLeadsBack(table, root, Children(table, root));
    } else {
      NeverEndsOnACycle(table, root, n - 1);
      RoundLeadsBack(table, root, StackAfter(table, root, n - 1));
      RoundLeadsBack(table, root, StackAfter(table, root, n));
    }
  }
}
