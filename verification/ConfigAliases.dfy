/**
 The alias loop of the initial config, amid the notifications the read loop handles while it runs. The session is
 handed out only afterwards, so no other setter is under way; but the loop holds no lock between its own steps.
 */
module ConfigAliases {
  import opened Options
  import opened ConfigFence
  import ConfigTrust

  /** A notification that touches the fence. */
  datatype Note = OfMode(mode: string) | OfOptions(options: seq<ConfigOption>)

  /** What is read, for one alias, before its test, then before its setter begins, installs and ends. */
  datatype Around = Around(test: seq<Note>, begin: seq<Note>, install: seq<Note>, end: seq<Note>)

  const NOTHING_READ := Around([], [], [], [])

  /** What the loop goes over: for each alias its value, the provider's answer to it and what is read meanwhile. */
  datatype Try = Try(value: Option<Setting>, answer: Answer, around: Around)

  function AfterNote(f: Fence, n: Note): Fence {
    match n
    case OfMode(mode) => NotifyMode(f, mode)
    case OfOptions(options) => NotifyOptions(f, options)
  }

  function AfterNotes(f: Fence, notes: seq<Note>): (g: Fence)
    ensures g.pending == f.pending
  {
    if notes == [] then f else AfterNote(AfterNotes(f, notes[..|notes| - 1]), notes[|notes| - 1])
  }

  /** SetAgentConfigOption from begin to end. */
  function SetAmid(f: Fence, id: string, t: Try): (g: Fence)
    ensures g.pending == f.pending
  {
    var (begun, ticket) := BeginChange(AfterNotes(f, t.around.begin));
    var before := AfterNotes(begun, t.around.install);
    EndChange(AfterNotes(Install(before, ticket, SetOption(id, t.value), t.answer), t.around.end))
  }

  /** The fence once the setters of the first `i` aliases have ended. */
  function AfterTries(f: Fence, id: string, tries: seq<Try>, i: nat): Fence
    requires i <= |tries|
    decreases i, 0
  {
    if i == 0 then f else SetAmid(AtTest(f, id, tries, i - 1), id, tries[i - 1])
  }

  /** The fence that the test of alias `i` looks at, the earlier aliases having been sent. */
  function AtTest(f: Fence, id: string, tries: seq<Try>, i: nat): Fence
    requires i < |tries|
    decreases i, 1
  {
    AfterNotes(AfterTries(f, id, tries, i), tries[i].around.test)
  }

  /** Alias `i` is taken from the snapshot, when its turn comes. */
  predicate Passes(f: Fence, id: string, tries: seq<Try>, i: nat)
    requires i < |tries|
  {
    InitialOptionEqual(AtTest(f, id, tries, i), id, tries[i].value)
  }

  /** The first `i` aliases failed their test and were refused. */
  predicate AllRefused(f: Fence, id: string, tries: seq<Try>, i: nat)
    requires i <= |tries|
  {
    forall j | 0 <= j < i :: !Passes(f, id, tries, j) && tries[j].answer.Refused?
  }

  // ---------- what a test can see ----------

  predicate IsQuiet(n: Note) {
    n == OfMode("")
  }

  predicate AreQuiet(notes: seq<Note>) {
    forall k | 0 <= k < |notes| :: IsQuiet(notes[k])
  }

  /** The last notification that says anything is the options snapshot at `k`. */
  predicate EndsInOptions(notes: seq<Note>, k: nat) {
    k < |notes| && notes[k].OfOptions? && forall j | k < j < |notes| :: IsQuiet(notes[j])
  }

  /** `notes` vouch for the value: their last word is a snapshot that reports it. */
  ghost predicate Vouch(notes: seq<Note>, id: string, value: Option<Setting>) {
    value.Some? && exists k: nat :: EndsInOptions(notes, k) && ConfigTrust.Reported(notes[k].options, id) == value
  }

  lemma QuietJoin(notes: seq<Note>, last: Note)
    ensures AreQuiet(notes + [last]) <==> AreQuiet(notes) && IsQuiet(last)
  {
    var all := notes + [last];
    assert all[|notes|] == last && forall k | 0 <= k < |notes| :: all[k] == notes[k];
  }

  lemma {:induction false} NotesPending(f: Fence, notes: seq<Note>)
    requires f.pending > 0
    ensures AfterNotes(f, notes).current <==> f.current && AreQuiet(notes)
    ensures AreQuiet(notes) ==> AfterNotes(f, notes) == f
  {
    if notes != [] {
      var some, last := notes[..|notes| - 1], notes[|notes| - 1];
      assert notes == some + [last];
      NotesPending(f, some);
      QuietJoin(some, last);
    }
  }

  lemma {:induction false} NotesUntrusted(f: Fence, notes: seq<Note>)
    requires f.pending == 0 && !f.current
    ensures AfterNotes(f, notes).current ==>
      exists k: nat :: EndsInOptions(notes, k) && AfterNotes(f, notes).options == ProjectAll(notes[k].options)
    ensures (exists k: nat :: EndsInOptions(notes, k)) ==> AfterNotes(f, notes).current
  {
    if notes != [] {
      var some, last := notes[..|notes| - 1], notes[|notes| - 1];
      assert notes == some + [last];
      NotesUntrusted(f, some);
      if IsQuiet(last) {
        forall k: nat ensures EndsInOptions(notes, k) <==> EndsInOptions(some, k) { QuietEnd(some, last, k); }
      } else if last.OfOptions? {
        assert EndsInOptions(notes, |some|);
      }
    }
  }

  lemma QuietEnd(notes: seq<Note>, last: Note, k: nat)
    requires IsQuiet(last)
    ensures EndsInOptions(notes + [last], k) <==> EndsInOptions(notes, k)
  {
    var all := notes + [last];
    assert forall j | 0 <= j < |notes| :: all[j] == notes[j];
    if EndsInOptions(all, k) {
      forall j | k < j < |notes| ensures IsQuiet(notes[j]) { assert IsQuiet(all[j]); }
    }
  }

  lemma EndsInOne(notes: seq<Note>, j: nat, k: nat)
    requires EndsInOptions(notes, j) && EndsInOptions(notes, k)
    ensures j == k
  {
    assert !IsQuiet(notes[j]) && !IsQuiet(notes[k]);
  }

  /**
   A setter leaves the snapshot trusted exactly when the provider answered with one, no other setter was under
   way, and nothing was read between its begin and its end; the snapshot is then the answer's.
   */
  lemma SetterLeavesTrust(f: Fence, id: string, t: Try)
    ensures SetAmid(f, id, t).current <==>
      t.answer.Snapshot? && f.pending == 0 && AreQuiet(t.around.install) && AreQuiet(t.around.end)
    ensures SetAmid(f, id, t).current ==> SetAmid(f, id, t).options == ProjectAll(t.answer.options)
  {
    hide ProjectAll, RawConfigOf, Patched;
    var (begun, ticket) := BeginChange(AfterNotes(f, t.around.begin));
    var before := AfterNotes(begun, t.around.install);
    NotesPending(begun, t.around.install);
    NotesVersion(begun, t.around.install);
    NotesPending(Install(before, ticket, SetOption(id, t.value), t.answer), t.around.end);
  }

  lemma {:induction false} NotesVersion(f: Fence, notes: seq<Note>)
    ensures AfterNotes(f, notes).version >= f.version
    ensures AfterNotes(f, notes).version == f.version <==> AreQuiet(notes)
  {
    if notes != [] {
      var some := notes[..|notes| - 1];
      assert notes == some + [notes[|some|]];
      NotesVersion(f, some);
      QuietJoin(some, notes[|some|]);
    }
  }

  /**
   After a refused alias the next one passes its test exactly when what was read since the refused setter ended
   vouches for it: the last notification of that stretch is a snapshot reporting the alias. Nothing read before
   counts, not even the snapshot that was trusted when the loop began.
   */
  lemma LaterAliasIsVouchedFor(f: Fence, id: string, tries: seq<Try>, i: nat)
    requires f.pending == 0 && 0 < i < |tries| && tries[i - 1].answer.Refused?
    ensures Passes(f, id, tries, i) <==> Vouch(tries[i].around.test, id, tries[i].value)
  {
    hide ProjectAll, RawConfigOf, Patched, SetAmid;
    var start, notes := AfterTries(f, id, tries, i), tries[i].around.test;
    TriesPending(f, id, tries, i);
    SetterLeavesTrust(AtTest(f, id, tries, i - 1), id, tries[i - 1]);
    NotesUntrusted(start, notes);
    if AfterNotes(start, notes).current {
      var k: nat :| EndsInOptions(notes, k) && AfterNotes(start, notes).options == ProjectAll(notes[k].options);
      ConfigTrust.FindProjected(notes[k].options, id);
      forall j: nat | EndsInOptions(notes, j) ensures j == k { EndsInOne(notes, j, k); }
    }
  }

  lemma {:induction false} TriesPending(f: Fence, id: string, tries: seq<Try>, i: nat)
    requires i <= |tries|
    ensures AfterTries(f, id, tries, i).pending == f.pending
    decreases i
  {
    hide SetAmid;
    if i > 0 { TriesPending(f, id, tries, i - 1); }
  }

  predicate NothingRead(tries: seq<Try>) {
    forall j | 0 <= j < |tries| :: tries[j].around == NOTHING_READ
  }

  /** When nothing is read meanwhile, each alias costs one version and only the first can pass its test. */
  lemma {:induction false} UndisturbedTries(f: Fence, id: string, tries: seq<Try>, i: nat)
    requires NothingRead(tries) && i <= |tries|
    ensures AfterTries(f, id, tries, i).version == f.version + i
    ensures 0 < i < |tries| && tries[i - 1].answer.Refused? ==> !Passes(f, id, tries, i)
    decreases i
  {
    hide ProjectAll, RawConfigOf, Patched;
    if i > 0 {
      UndisturbedTries(f, id, tries, i - 1);
      SetterLeavesTrust(AtTest(f, id, tries, i - 1), id, tries[i - 1]);
    }
  }
}
