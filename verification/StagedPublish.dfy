/** The in-process staged transaction of the local publisher: commit, rollback, finalize. */
module StagedPublish {
  import opened Wrappers

  type Path = string
  type Tree = string
  type Files = map<Path, Tree>

  /** Replace the target by the staged tree, or only remove it if nothing is staged. */
  datatype Entry = Entry(target: Path, staging: Option<Path>, backup: Path)

  function At(files: Files, p: Path): Option<Tree> {
    if p in files then Some(files[p]) else None
  }

  /** A step is done, or it raises; `residue` is what a deletion that raises half-way leaves behind. */
  datatype Fault = Fine | Raises(residue: Option<Tree>)

  /** `faults` says what happens at each coming step; when it runs out, steps succeed. */
  datatype Progress = Progress(files: Files, committed: seq<Entry>, faults: seq<Fault>, raised: bool)

  function Tick(s: Progress): Progress {
    if s.faults == [] then s else s.(faults := s.faults[1..], raised := s.faults[0].Raises?)
  }

  function Moved(files: Files, source: Path, target: Path): Files
    requires source in files
  {
    (files - {source})[target := files[source]]
  }

  /** A rename onto a free path; anything else raises. */
  function Rename(s: Progress, source: Path, target: Path): (n: Progress)
    ensures n.committed == s.committed
  {
    var next := Tick(s);
    if next.raised then next
    else if source in s.files && target !in s.files then next.(files := Moved(s.files, source, target))
    else next.(raised := true)
  }

  function Settle(files: Files, p: Path, content: Option<Tree>): Files {
    match content
    case None => files - {p}
    case Some(tree) => files[p := tree]
  }

  /** `shutil.rmtree` of what stands at a path, if anything does. */
  function RemoveTree(s: Progress, p: Path): (n: Progress)
    ensures n.committed == s.committed
  {
    if p !in s.files then s
    else
      var next := Tick(s);
      next.(files := if next.raised then Settle(s.files, p, if s.faults == [] then None else s.faults[0].residue)
                     else s.files - {p})
  }

  /** Creating the parent directory is one more step that can raise. */
  function CommitEntry(s: Progress, e: Entry): Progress {
    var parent := Tick(s);
    if parent.raised then parent else
    var saved := if e.target in parent.files then Rename(parent, e.target, e.backup) else parent;
    if saved.raised then saved else
    var moved := if e.staging.Some? then Rename(saved, e.staging.value, e.target) else saved;
    if moved.raised then moved else moved.(committed := moved.committed + [e])
  }

  function CommitFrom(s: Progress, entries: seq<Entry>, i: nat): Progress
    requires i <= |entries|
    decreases |entries| - i
  {
    if i == |entries| then s
    else
      var next := CommitEntry(s, entries[i]);
      if next.raised then next else CommitFrom(next, entries, i + 1)
  }

  // ----- rollback, which can raise itself

  function UndoEntry(s: Progress, e: Entry): (n: Progress)
    ensures n.committed == s.committed
  {
    var cleared := RemoveTree(s, e.target);
    if cleared.raised then cleared
    else if e.backup in cleared.files then Rename(cleared, e.backup, e.target) else cleared
  }

  /** Undoes committed[n-1], ..., committed[0]; the list itself is cleared only afterwards. */
  function UndoDown(s: Progress, n: nat): (d: Progress)
    requires n <= |s.committed|
    ensures d.committed == s.committed
    decreases n
  {
    if n == 0 then s
    else
      var next := UndoEntry(s, s.committed[n - 1]);
      if next.raised then next else UndoDown(next, n - 1)
  }

  function SweepEntry(s: Progress, e: Entry): (n: Progress)
    ensures n.committed == s.committed
  {
    var cleared := if e.staging.Some? then RemoveTree(s, e.staging.value) else s;
    if cleared.raised then cleared
    else if e.backup in cleared.files && e.target !in cleared.files then Rename(cleared, e.backup, e.target)
    else cleared
  }

  function SweepFrom(s: Progress, entries: seq<Entry>, i: nat): (d: Progress)
    requires i <= |entries|
    ensures d.committed == s.committed
    decreases |entries| - i
  {
    if i == |entries| then s
    else
      var next := SweepEntry(s, entries[i]);
      if next.raised then next else SweepFrom(next, entries, i + 1)
  }

  /** `raised` of the result says whether the rollback itself raised. */
  function Rollback(s: Progress, entries: seq<Entry>): Progress {
    var undone := UndoDown(s.(raised := false), |s.committed|);
    if undone.raised then undone else SweepFrom(undone.(committed := []), entries, 0)
  }

  /** A failed commit rolls itself back and raises again. */
  function Commit(s: Progress, entries: seq<Entry>): Progress {
    var done := CommitFrom(s, entries, 0);
    if done.raised then Rollback(done, entries).(raised := true) else done
  }

  function DropEntry(s: Progress, e: Entry): Progress {
    var cleared := if e.staging.Some? then RemoveTree(s, e.staging.value) else s;
    if cleared.raised then cleared else RemoveTree(cleared, e.backup)
  }

  function FinalizeFrom(s: Progress, entries: seq<Entry>, i: nat): Progress
    requires i <= |entries|
    decreases |entries| - i
  {
    if i == |entries| then s
    else
      var next := DropEntry(s, entries[i]);
      if next.raised then next else FinalizeFrom(next, entries, i + 1)
  }

  // ----- states of one entry; `orig` are the files before anything was staged

  ghost function Slots(e: Entry): set<Path> {
    {e.target, e.backup} + if e.staging.Some? then {e.staging.value} else {}
  }

  ghost predicate SelfApart(e: Entry) {
    e.target != e.backup && (e.staging.Some? ==> e.staging.value != e.target && e.staging.value != e.backup)
  }

  ghost predicate Apart(entries: seq<Entry>) {
    && (forall i :: 0 <= i < |entries| ==> SelfApart(entries[i]))
    && forall i, j :: 0 <= i < j < |entries| ==> Slots(entries[i]) !! Slots(entries[j])
  }

  ghost predicate Outside(entries: seq<Entry>, p: Path) {
    forall i :: 0 <= i < |entries| ==> p !in Slots(entries[i])
  }

  ghost predicate SameOutside(orig: Files, files: Files, entries: seq<Entry>) {
    forall p :: Outside(entries, p) ==> At(orig, p) == At(files, p)
  }

  ghost predicate SameExcept(f: Files, g: Files, slots: set<Path>) {
    forall p :: p !in slots ==> At(f, p) == At(g, p)
  }

  ghost predicate Waiting(orig: Files, files: Files, e: Entry) {
    && At(files, e.target) == At(orig, e.target) && e.backup !in files
    && (e.staging.Some? ==> e.staging.value in files)
  }

  /** The target is saved but the staged tree is not in place yet. */
  ghost predicate Halfway(orig: Files, files: Files, e: Entry) {
    e.staging.Some? && e.staging.value in files && e.target !in files && At(files, e.backup) == At(orig, e.target)
  }

  ghost predicate Replaced(orig: Files, files: Files, e: Entry) {
    && At(files, e.backup) == At(orig, e.target)
    && (if e.staging.Some? then e.target in files && e.staging.value !in files else e.target !in files)
  }

  ghost predicate Home(orig: Files, files: Files, e: Entry) {
    && At(files, e.target) == At(orig, e.target) && e.backup !in files
    && (e.staging.Some? ==> e.staging.value !in files)
  }

  /** Being undone: the old tree is in the backup, whatever a deletion has left at the target. */
  ghost predicate Torn(orig: Files, files: Files, e: Entry) {
    At(files, e.backup) == At(orig, e.target) && (e.staging.Some? ==> e.staging.value !in files)
  }

  /** Being swept: the old tree is at the target or, with the target free, in the backup. */
  ghost predicate Sweepable(orig: Files, files: Files, e: Entry) {
    || (At(files, e.target) == At(orig, e.target) && e.backup !in files)
    || (e.target !in files && At(files, e.backup) == At(orig, e.target))
  }

  ghost predicate Deleted(files: Files, e: Entry) {
    e.target !in files && e.backup !in files && (e.staging.Some? ==> e.staging.value !in files)
  }

  /** Names made for staging and backup were free. */
  ghost predicate Fresh(orig: Files, entries: seq<Entry>) {
    forall i :: 0 <= i < |entries| ==>
      entries[i].backup !in orig && (entries[i].staging.Some? ==> entries[i].staging.value !in orig)
  }

  ghost predicate Prepared(orig: Files, files: Files, entries: seq<Entry>) {
    && Apart(entries) && Fresh(orig, entries) && SameOutside(orig, files, entries)
    && forall i :: 0 <= i < |entries| ==> Waiting(orig, files, entries[i])
  }

  ghost predicate AllHome(orig: Files, files: Files, entries: seq<Entry>) {
    SameOutside(orig, files, entries) && forall i :: 0 <= i < |entries| ==> Home(orig, files, entries[i])
  }

  lemma HomeIsOriginal(orig: Files, files: Files, entries: seq<Entry>)
    requires Fresh(orig, entries) && AllHome(orig, files, entries)
    ensures files == orig
  {
    forall p ensures At(files, p) == At(orig, p) {
      if !Outside(entries, p) {
        var i :| 0 <= i < |entries| && p in Slots(entries[i]);
        assert Home(orig, files, entries[i]);
      }
    }
    assert forall p :: p in files <==> At(files, p).Some?;
    assert forall p :: p in orig <==> At(orig, p).Some?;
  }

  /** A step elsewhere leaves an entry as it is. */
  ghost predicate Stays(orig: Files, f: Files, g: Files, d: Entry) {
    && (Waiting(orig, f, d) ==> Waiting(orig, g, d)) && (Halfway(orig, f, d) ==> Halfway(orig, g, d))
    && (Replaced(orig, f, d) ==> Replaced(orig, g, d)) && (Home(orig, f, d) ==> Home(orig, g, d))
    && (Torn(orig, f, d) ==> Torn(orig, g, d)) && (Sweepable(orig, f, d) ==> Sweepable(orig, g, d))
    && (Deleted(f, d) ==> Deleted(g, d)) && At(f, d.target) == At(g, d.target)
    && (d.staging.Some? ==> At(f, d.staging.value) == At(g, d.staging.value))
  }

  lemma FrameOthers(orig: Files, f: Files, g: Files, entries: seq<Entry>, i: nat)
    requires Apart(entries) && i < |entries| && SameExcept(f, g, Slots(entries[i]))
    ensures forall j :: 0 <= j < |entries| && j != i ==> Stays(orig, f, g, entries[j])
  {
    forall j | 0 <= j < |entries| && j != i ensures Stays(orig, f, g, entries[j]) {
      var d := entries[j];
      assert Slots(entries[i]) !! Slots(d);
      assert At(f, d.target) == At(g, d.target) && At(f, d.backup) == At(g, d.backup);
      assert d.staging.Some? ==> At(f, d.staging.value) == At(g, d.staging.value);
    }
  }

  lemma FrameOutside(orig: Files, f: Files, g: Files, entries: seq<Entry>, i: nat)
    requires i < |entries| && SameOutside(orig, f, entries) && SameExcept(f, g, Slots(entries[i]))
    ensures SameOutside(orig, g, entries)
  {
    forall p | Outside(entries, p) ensures At(orig, p) == At(g, p) {
      assert p !in Slots(entries[i]);
    }
  }

  // ----- the commit loop

  /** The staged tree is in place. */
  ghost predicate HasNew(staged: Files, files: Files, e: Entry) {
    e.staging.Some? ==> At(files, e.target) == At(staged, e.staging.value)
  }

  lemma CommitEntryStep(s: Progress, e: Entry, orig: Files)
    requires SelfApart(e) && Waiting(orig, s.files, e) && !s.raised
    ensures var n := CommitEntry(s, e);
      && SameExcept(s.files, n.files, Slots(e))
      && (!n.raised ==> Replaced(orig, n.files, e) && n.committed == s.committed + [e] && HasNew(s.files, n.files, e))
      && (n.raised ==> (Waiting(orig, n.files, e) || Halfway(orig, n.files, e)) && n.committed == s.committed)
      && (s.faults == [] ==> !n.raised && n.faults == [])
  {
  }

  /** Entries below i are committed, entry i may be half-way if the loop raised there, the others are waiting. */
  ghost predicate Reached(orig: Files, staged: Files, s: Progress, entries: seq<Entry>, i: nat)
    requires i <= |entries|
  {
    && SameOutside(orig, s.files, entries) && s.committed == entries[..i]
    && (forall j :: 0 <= j < i ==> Replaced(orig, s.files, entries[j]) && HasNew(staged, s.files, entries[j]))
    && (i < |entries| ==> Waiting(orig, s.files, entries[i]) || (s.raised && Halfway(orig, s.files, entries[i])))
    && (forall j :: i < j < |entries| ==> Waiting(orig, s.files, entries[j]))
    && (forall j :: i <= j < |entries| && entries[j].staging.Some? && !s.raised ==>
          At(s.files, entries[j].staging.value) == At(staged, entries[j].staging.value))
  }

  lemma CommitOne(orig: Files, staged: Files, s: Progress, entries: seq<Entry>, i: nat)
    requires Apart(entries) && i < |entries| && !s.raised && Reached(orig, staged, s, entries, i)
    ensures var n := CommitEntry(s, entries[i]);
      Reached(orig, staged, n, entries, if n.raised then i else i + 1)
        && (s.faults == [] ==> !n.raised && n.faults == [])
  {
    var e, n := entries[i], CommitEntry(s, entries[i]);
    CommitEntryStep(s, e, orig);
    hide CommitEntry;
    FrameOutside(orig, s.files, n.files, entries, i);
    FrameOthers(orig, s.files, n.files, entries, i);
    assert entries[..i + 1] == entries[..i] + [e];
    hide Apart;
    hide SameOutside;
    hide Waiting;
    hide Halfway;
    hide Replaced;
  }

  lemma {:induction false} CommitReaches(orig: Files, staged: Files, s: Progress, entries: seq<Entry>, i: nat)
      returns (stop: nat)
    requires Apart(entries) && i <= |entries| && !s.raised && Reached(orig, staged, s, entries, i)
    ensures var done := CommitFrom(s, entries, i);
      && stop <= |entries| && Reached(orig, staged, done, entries, stop)
      && (!done.raised <==> stop == |entries|) && (s.faults == [] ==> !done.raised)
    decreases |entries| - i
  {
    hide CommitEntry;
    hide Reached;
    hide Apart;
    stop := i;
    if i < |entries| {
      var n := CommitEntry(s, entries[i]);
      CommitOne(orig, staged, s, entries, i);
      if !n.raised {
        stop := CommitReaches(orig, staged, n, entries, i + 1);
      }
    }
  }

  // ----- rollback: undoing the committed entries

  /** A removal of nothing. */
  ghost predicate Still(orig: Files, e: Entry) {
    e.staging.None? && e.target !in orig
  }

  lemma UndoEntryStep(s: Progress, e: Entry, orig: Files)
    requires SelfApart(e) && Torn(orig, s.files, e) && !s.raised
    ensures var n := UndoEntry(s, e);
      && (Still(orig, e) && e.target !in s.files ==> n == s)
      && SameExcept(s.files, n.files, Slots(e))
      && (if n.raised then Torn(orig, n.files, e) else Home(orig, n.files, e))
      && (s.faults == [] ==> !n.raised && n.faults == [])
  {
  }

  /** Entries in [n, i) are home, those below n still to be undone, the rest as the commit left them. */
  ghost predicate Undoing(orig: Files, files: Files, entries: seq<Entry>, n: nat, i: nat)
    requires n <= i <= |entries|
  {
    && SameOutside(orig, files, entries)
    && (forall j :: 0 <= j < n ==> Torn(orig, files, entries[j]))
    && (forall j :: n <= j < i ==> Home(orig, files, entries[j]))
    && (forall j :: i <= j < |entries| ==> Waiting(orig, files, entries[j]) || Halfway(orig, files, entries[j]))
  }

  lemma UndoOne(orig: Files, s: Progress, entries: seq<Entry>, n: nat, i: nat)
    requires Apart(entries) && n < i <= |entries| && !s.raised && Undoing(orig, s.files, entries, n + 1, i)
    ensures var d := UndoEntry(s, entries[n]);
      && Undoing(orig, d.files, entries, if d.raised then n + 1 else n, i)
      && (s.faults == [] ==> !d.raised && d.faults == [])
      && (d.raised ==> !Still(orig, entries[n]) || entries[n].target in s.files)
      && forall j :: 0 <= j < n ==> At(d.files, entries[j].target) == At(s.files, entries[j].target)
  {
    var e, d := entries[n], UndoEntry(s, entries[n]);
    UndoEntryStep(s, e, orig);
    hide UndoEntry;
    FrameOutside(orig, s.files, d.files, entries, n);
    FrameOthers(orig, s.files, d.files, entries, n);
    hide Apart;
    hide SameOutside;
  }

  /** The loop ends with all entries home, or raises with a rest of them still torn. */
  lemma {:induction false} UndoReaches(orig: Files, s: Progress, entries: seq<Entry>, n: nat, i: nat) returns (m: nat)
    requires Apart(entries) && n <= i <= |entries| && !s.raised && s.committed == entries[..i]
    requires Undoing(orig, s.files, entries, n, i)
    ensures var d := UndoDown(s, n);
      m <= n && Undoing(orig, d.files, entries, m, i) && (d.raised <==> m > 0)
        && (s.faults == [] ==> m == 0 && d.faults == [])
        && (m > 0 ==> !Still(orig, entries[m - 1]) || entries[m - 1].target in s.files)
    decreases n
  {
    hide Undoing;
    hide UndoEntry;
    hide Apart;
    hide Still;
    m := n;
    if n > 0 {
      UndoOne(orig, s, entries, n - 1, i);
      assert entries[..i][n - 1] == entries[n - 1];
      var d := UndoEntry(s, entries[n - 1]);
      if !d.raised {
        m := UndoReaches(orig, d, entries, n - 1, i);
        assert m > 0 ==> At(d.files, entries[m - 1].target) == At(s.files, entries[m - 1].target);
      }
    }
  }

  // ----- rollback: sweeping

  lemma SweepEntryStep(s: Progress, e: Entry, orig: Files)
    requires SelfApart(e) && Sweepable(orig, s.files, e) && !s.raised
    ensures var n := SweepEntry(s, e);
      && SameExcept(s.files, n.files, Slots(e))
      && Sweepable(orig, n.files, e) && (!n.raised ==> Home(orig, n.files, e))
      && (s.faults == [] ==> !n.raised && n.faults == [])
      && (Home(orig, s.files, e) ==> n == s)
  {
  }

  /** Swept so far: entries below i are home. */
  ghost predicate Sweeping(orig: Files, files: Files, entries: seq<Entry>, i: nat)
    requires i <= |entries|
  {
    && SameOutside(orig, files, entries)
    && (forall j :: 0 <= j < i ==> Home(orig, files, entries[j]))
    && (forall j :: i <= j < |entries| ==> Sweepable(orig, files, entries[j]))
  }

  lemma SweepOne(orig: Files, s: Progress, entries: seq<Entry>, i: nat)
    requires Apart(entries) && i < |entries| && !s.raised && Sweeping(orig, s.files, entries, i)
    ensures var d := SweepEntry(s, entries[i]);
      && Sweeping(orig, d.files, entries, if d.raised then i else i + 1)
      && (s.faults == [] ==> !d.raised && d.faults == [])
  {
    var e, d := entries[i], SweepEntry(s, entries[i]);
    SweepEntryStep(s, e, orig);
    hide SweepEntry;
    FrameOutside(orig, s.files, d.files, entries, i);
    FrameOthers(orig, s.files, d.files, entries, i);
    hide Apart;
    hide SameOutside;
  }

  lemma {:induction false} SweepReaches(orig: Files, s: Progress, entries: seq<Entry>, i: nat) returns (m: nat)
    requires Apart(entries) && i <= |entries| && !s.raised && Sweeping(orig, s.files, entries, i)
    ensures var d := SweepFrom(s, entries, i);
      m <= |entries| && Sweeping(orig, d.files, entries, m) && (d.raised <==> m < |entries|)
        && (s.faults == [] ==> !d.raised)
    decreases |entries| - i
  {
    hide Sweeping;
    hide SweepEntry;
    hide Apart;
    m := i;
    if i < |entries| {
      SweepOne(orig, s, entries, i);
      var d := SweepEntry(s, entries[i]);
      if !d.raised { m := SweepReaches(orig, d, entries, i + 1); }
    }
  }

  /** Every old tree is at its target or in its backup. */
  ghost predicate OriginalsKept(orig: Files, files: Files, entries: seq<Entry>) {
    forall j :: 0 <= j < |entries| && entries[j].target in orig ==>
      At(files, entries[j].target) == At(orig, entries[j].target)
        || At(files, entries[j].backup) == At(orig, entries[j].target)
  }

  lemma ReachedIsUndoing(orig: Files, staged: Files, s: Progress, entries: seq<Entry>, i: nat)
    requires i <= |entries| && Reached(orig, staged, s, entries, i)
    ensures s.committed == entries[..i] && Undoing(orig, s.files, entries, i, i)
  {
  }

  /** Between the two loops of a rollback. */
  lemma UndoneIsSweepable(orig: Files, files: Files, entries: seq<Entry>, i: nat)
    requires i <= |entries| && Undoing(orig, files, entries, 0, i)
    ensures Sweeping(orig, files, entries, 0)
  {
  }

  lemma KeptWhileUndoing(orig: Files, files: Files, entries: seq<Entry>, m: nat, i: nat)
    requires m <= i <= |entries| && Undoing(orig, files, entries, m, i)
    ensures OriginalsKept(orig, files, entries)
  {
  }

  lemma KeptWhileSweeping(orig: Files, files: Files, entries: seq<Entry>, m: nat)
    requires m <= |entries| && Sweeping(orig, files, entries, m)
    ensures OriginalsKept(orig, files, entries)
  {
  }

  /** Where a rollback can stop: undoing with the list kept, or sweeping with the list cleared. */
  ghost predicate StoppedAt(orig: Files, r: Progress, entries: seq<Entry>, m: nat, i: nat)
    requires m <= i <= |entries|
  {
    if m > 0 then r.raised && r.committed == entries[..i] && Undoing(orig, r.files, entries, m, i)
    else
      && r.committed == []
      && exists k ::
           0 <= k <= |entries| && Sweeping(orig, r.files, entries, k) && (r.raised <==> k < |entries|)
  }

  /** A rollback from wherever a commit loop or an earlier undo stopped, under any faults. */
  lemma RollbackStops(orig: Files, s: Progress, entries: seq<Entry>, i: nat) returns (m: nat)
    requires Apart(entries) && i <= |entries| && s.committed == entries[..i] && Undoing(orig, s.files, entries, i, i)
    ensures m <= i && StoppedAt(orig, Rollback(s, entries), entries, m, i)
    ensures s.faults == [] ==> !Rollback(s, entries).raised
    ensures m > 0 ==> !Still(orig, entries[m - 1]) || entries[m - 1].target in s.files
  {
    hide UndoDown;
    hide SweepFrom;
    hide Undoing;
    hide Sweeping;
    hide Apart;
    var start := s.(raised := false);
    m := UndoReaches(orig, start, entries, i, i);
    var undone := UndoDown(start, |s.committed|);
    if m == 0 {
      UndoneIsSweepable(orig, undone.files, entries, i);
      var k := SweepReaches(orig, undone.(committed := []), entries, 0);
    }
  }

  lemma SweptIsOriginal(orig: Files, files: Files, entries: seq<Entry>)
    requires Fresh(orig, entries) && Sweeping(orig, files, entries, |entries|)
    ensures files == orig
  {
    HomeIsOriginal(orig, files, entries);
  }

  /**
   Rolling back from wherever the commit loop stopped, whatever raises in the rollback itself: if it completes, the
   original files are back; if it raises, every old tree is still at its target or in its backup.
   */
  lemma RollbackEnds(orig: Files, staged: Files, s: Progress, entries: seq<Entry>, i: nat)
    requires Apart(entries) && Fresh(orig, entries) && i <= |entries| && Reached(orig, staged, s, entries, i)
    ensures var r := Rollback(s, entries);
      && (!r.raised ==> r.files == orig && r.committed == [])
      && OriginalsKept(orig, r.files, entries)
      && (s.faults == [] ==> !r.raised)
  {
    hide Rollback;
    hide Sweeping;
    hide Undoing;
    hide Apart;
    ReachedIsUndoing(orig, staged, s, entries, i);
    hide Reached;
    var m := RollbackStops(orig, s, entries, i);
    var r := Rollback(s, entries);
    if m > 0 {
      KeptWhileUndoing(orig, r.files, entries, m, i);
    } else {
      var k :| 0 <= k <= |entries| && Sweeping(orig, r.files, entries, k) && (r.raised <==> k < |entries|);
      KeptWhileSweeping(orig, r.files, entries, k);
      if !r.raised { SweptIsOriginal(orig, r.files, entries); }
    }
  }

  // ----- a second rollback after one that raised

  /** Undoing an entry that is home already deletes its tree. */
  lemma UndoHome(s: Progress, e: Entry, orig: Files)
    requires SelfApart(e) && Home(orig, s.files, e) && !s.raised && !UndoEntry(s, e).raised
    ensures UndoEntry(s, e).files == s.files - {e.target}
  {
  }

  /** What a second undo has reached: from n on nothing stands at the targets that were home before it. */
  ghost predicate Redoing(orig: Files, files: Files, entries: seq<Entry>, n: nat, m: nat, i: nat)
    requires m <= i <= |entries| && n <= i
  {
    && SameOutside(orig, files, entries)
    && (forall j :: 0 <= j < n && j < m ==> Torn(orig, files, entries[j]))
    && (forall j :: n <= j < m ==> Home(orig, files, entries[j]))
    && (forall j :: m <= j < n ==> Home(orig, files, entries[j]))
    && (forall j :: m <= j < i && n <= j ==> Deleted(files, entries[j]))
    && (forall j :: i <= j < |entries| ==> Waiting(orig, files, entries[j]) || Halfway(orig, files, entries[j]))
  }

  lemma RedoOne(orig: Files, s: Progress, entries: seq<Entry>, n: nat, m: nat, i: nat)
    requires Apart(entries) && m <= i <= |entries| && n < i && !s.raised && Redoing(orig, s.files, entries, n + 1, m, i)
    requires !UndoEntry(s, entries[n]).raised
    ensures Redoing(orig, UndoEntry(s, entries[n]).files, entries, n, m, i)
  {
    var e, d := entries[n], UndoEntry(s, entries[n]);
    if n < m {
      UndoEntryStep(s, e, orig);
    } else {
      UndoHome(s, e, orig);
      assert e.target in Slots(e);
    }
    assert SameExcept(s.files, d.files, Slots(e));
    assert if n < m then Home(orig, d.files, e) else Deleted(d.files, e);
    hide UndoEntry;
    FrameOutside(orig, s.files, d.files, entries, n);
    FrameOthers(orig, s.files, d.files, entries, n);
    hide Apart;
    hide SameOutside;
    hide Torn;
    hide Home;
    hide Deleted;
    hide Waiting;
    hide Halfway;
  }

  lemma {:induction false} RedoAll(orig: Files, s: Progress, entries: seq<Entry>, n: nat, m: nat, i: nat)
    requires Apart(entries) && m <= i <= |entries| && n <= i && !s.raised && s.committed == entries[..i]
    requires Redoing(orig, s.files, entries, n, m, i) && !UndoDown(s, n).raised
    ensures Redoing(orig, UndoDown(s, n).files, entries, 0, m, i)
    decreases n
  {
    hide Redoing;
    hide UndoEntry;
    hide Apart;
    if n > 0 {
      assert entries[..i][n - 1] == entries[n - 1];
      RedoOne(orig, s, entries, n - 1, m, i);
      RedoAll(orig, UndoEntry(s, entries[n - 1]), entries, n - 1, m, i);
    }
  }

  /** The original files without the targets of entries m, ..., i-1. */
  ghost function Without(orig: Files, entries: seq<Entry>, m: nat, i: nat): Files
    requires m <= i <= |entries|
  {
    orig - set j | m <= j < i :: entries[j].target
  }

  /** Seen from the original files without the lost targets, the sweep starts from an ordinary state. */
  lemma RedoneIsSweepable(orig: Files, files: Files, entries: seq<Entry>, m: nat, i: nat)
    requires Apart(entries) && m <= i <= |entries| && Redoing(orig, files, entries, 0, m, i)
    ensures Sweeping(Without(orig, entries, m, i), files, entries, 0)
  {
    var left := Without(orig, entries, m, i);
    forall j | 0 <= j < |entries|
      ensures At(left, entries[j].target) == if m <= j < i then None else At(orig, entries[j].target)
    {
      forall k | m <= k < i && k != j ensures entries[k].target != entries[j].target {
        assert Slots(entries[k]) !! Slots(entries[j]);
        assert entries[k].target in Slots(entries[k]) && entries[j].target in Slots(entries[j]);
      }
    }
    forall p | Outside(entries, p) ensures At(left, p) == At(files, p) {
      forall k | m <= k < i ensures entries[k].target != p {
        assert entries[k].target in Slots(entries[k]);
      }
    }
  }

  /**
   After a rollback that raised, a second one that completes: it restores the original files if and only if every
   entry still in the list had nothing at its target before, or still has its backup.  An entry without its backup
   was restored by the first rollback, and the second deletes the restored tree.
   */
  lemma SecondRollbackIff(orig: Files, staged: Files, s: Progress, entries: seq<Entry>, i: nat, faults: seq<Fault>)
    requires Apart(entries) && Fresh(orig, entries) && i <= |entries| && Reached(orig, staged, s, entries, i)
    requires Rollback(s, entries).raised && !Rollback(Rollback(s, entries).(faults := faults), entries).raised
    ensures var first := Rollback(s, entries);
      var second := Rollback(first.(faults := faults), entries);
      && (second.files == orig <==>
            forall e :: e in first.committed && e.target in orig ==> e.backup in first.files)
      && forall e :: e in first.committed && e.target in orig && e.backup !in first.files ==>
           e.target !in second.files && e.backup !in second.files
  {
    hide Rollback;
    hide Sweeping;
    hide Undoing;
    hide Apart;
    hide Fresh;
    ReachedIsUndoing(orig, staged, s, entries, i);
    hide Reached;
    var m := RollbackStops(orig, s, entries, i);
    var first := Rollback(s, entries);
    if m == 0 {
      SecondFromSweeping(orig, first, entries, faults);
    } else {
      SecondFromUndoing(orig, first, entries, m, i, faults);
    }
  }

  /** The first rollback raised in its second loop: the list is empty and the second rollback finishes the sweep. */
  lemma SecondFromSweeping(orig: Files, first: Progress, entries: seq<Entry>, faults: seq<Fault>)
    requires Apart(entries) && Fresh(orig, entries) && first.committed == []
    requires exists k :: 0 <= k <= |entries| && Sweeping(orig, first.files, entries, k)
    requires !Rollback(first.(faults := faults), entries).raised
    ensures Rollback(first.(faults := faults), entries).files == orig
  {
    var k :| 0 <= k <= |entries| && Sweeping(orig, first.files, entries, k);
    assert Sweeping(orig, first.files, entries, 0);
    var again := first.(faults := faults, raised := false);
    assert again.(committed := []) == again;
    var j := SweepReaches(orig, again, entries, 0);
    hide SweepFrom;
    SweptIsOriginal(orig, SweepFrom(again, entries, 0).files, entries);
    hide Sweeping;
  }

  /** The first rollback raised in its first loop, with entries m, ..., i-1 home and still in the list. */
  lemma SecondFromUndoing(orig: Files, first: Progress, entries: seq<Entry>, m: nat, i: nat, faults: seq<Fault>)
    requires Apart(entries) && Fresh(orig, entries) && 0 < m <= i <= |entries| && first.committed == entries[..i]
    requires Undoing(orig, first.files, entries, m, i) && !Rollback(first.(faults := faults), entries).raised
    ensures var second := Rollback(first.(faults := faults), entries);
      && (second.files == orig <==>
            forall e :: e in first.committed && e.target in orig ==> e.backup in first.files)
      && forall e :: e in first.committed && e.target in orig && e.backup !in first.files ==>
           e.target !in second.files && e.backup !in second.files
  {
    var again := first.(faults := faults, raised := false);
    var left := Without(orig, entries, m, i);
    assert Redoing(orig, again.files, entries, i, m, i);
    RedoAll(orig, again, entries, i, m, i);
    var undone := UndoDown(again, i);
    RedoneIsSweepable(orig, undone.files, entries, m, i);
    var j := SweepReaches(left, undone.(committed := []), entries, 0);
    FreshWithout(orig, entries, m, i);
    SweptIsOriginal(left, Rollback(first.(faults := faults), entries).files, entries);
    hide Rollback;
    ListedBackups(orig, first, entries, m, i);
    hide Undoing;
    hide Redoing;
  }

  lemma FreshWithout(orig: Files, entries: seq<Entry>, m: nat, i: nat)
    requires Fresh(orig, entries) && m <= i <= |entries|
    ensures Fresh(Without(orig, entries, m, i), entries)
  {
  }

  /** In terms of the list: the lost targets are those whose old tree is no longer in the backup. */
  lemma ListedBackups(orig: Files, first: Progress, entries: seq<Entry>, m: nat, i: nat)
    requires m <= i <= |entries| && first.committed == entries[..i] && Fresh(orig, entries)
    requires Undoing(orig, first.files, entries, m, i)
    ensures var left := Without(orig, entries, m, i);
      && (left == orig <==> forall e :: e in first.committed && e.target in orig ==> e.backup in first.files)
      && forall e :: e in first.committed && e.target in orig && e.backup !in first.files ==>
           e.target !in left && e.backup !in left
  {
    var left := Without(orig, entries, m, i);
    forall e | e in first.committed
      ensures e.target in orig ==> (e.backup in first.files || (e.target !in left && e.backup !in left))
      ensures left == orig && e.target in orig ==> e.backup in first.files
    {
      var j :| 0 <= j < i && entries[j] == e;
      if j < m {
        assert Torn(orig, first.files, e);
      } else {
        assert Home(orig, first.files, e);
      }
    }
    if forall e :: e in first.committed && e.target in orig ==> e.backup in first.files {
      forall j | m <= j < i ensures entries[j].target !in orig {
        assert entries[..i][j] == entries[j];
        assert Home(orig, first.files, entries[j]);
      }
      assert left == orig;
    }
  }

  // ----- main results

  ghost predicate Ready(orig: Files, s: Progress, entries: seq<Entry>) {
    Prepared(orig, s.files, entries) && s.committed == [] && !s.raised
  }

  lemma ReadyIsReached(orig: Files, s: Progress, entries: seq<Entry>)
    requires Ready(orig, s, entries)
    ensures Reached(orig, s.files, s, entries, 0)
  {
    assert entries[..0] == [];
  }

  /**
   A commit that raises at any step: if its own rollback completes, every target is restored and nothing staged or
   saved is left; if that raises too, every old tree is still at its target or in its backup.
   */
  lemma FailedCommitRestores(orig: Files, s: Progress, entries: seq<Entry>)
    requires Ready(orig, s, entries) && Commit(s, entries).raised
    ensures var failed := Commit(s, entries);
      && (!Rollback(CommitFrom(s, entries, 0), entries).raised ==> failed.files == orig && failed.committed == [])
      && OriginalsKept(orig, failed.files, entries)
  {
    ReadyIsReached(orig, s, entries);
    var stop := CommitReaches(orig, s.files, s, entries, 0);
    RollbackEnds(orig, s.files, CommitFrom(s, entries, 0), entries, stop);
    hide CommitFrom;
    hide Rollback;
  }

  /** After a rollback that completed, the caller's second rollback changes nothing, whatever would raise. */
  lemma SecondRollbackChangesNothing(orig: Files, s: Progress, entries: seq<Entry>)
    requires Ready(orig, s, entries) && Commit(s, entries).raised
      && !Rollback(CommitFrom(s, entries, 0), entries).raised
    ensures Rollback(Commit(s, entries), entries) == Commit(s, entries).(raised := false)
  {
    FailedCommitRestores(orig, s, entries);
    var failed := Commit(s, entries);
    hide Commit;
    AllHomeIsSwept(orig, failed.(raised := false), entries, 0);
  }

  lemma {:induction false} AllHomeIsSwept(orig: Files, s: Progress, entries: seq<Entry>, i: nat)
    requires Apart(entries) && Fresh(orig, entries) && i <= |entries| && s.files == orig && !s.raised
    ensures SweepFrom(s, entries, i) == s
    decreases |entries| - i
  {
    if i < |entries| {
      SweepEntryStep(s, entries[i], orig);
      hide SweepEntry;
      AllHomeIsSwept(orig, s, entries, i + 1);
    }
  }

  /**
   The caller's second rollback after a commit whose own rollback raised: once it completes, the original files are
   back if and only if every entry still in the list had nothing at its target before, or still has its backup.
   */
  lemma CallersRollbackIff(orig: Files, s: Progress, entries: seq<Entry>, faults: seq<Fault>)
    requires Ready(orig, s, entries) && Commit(s, entries).raised && Rollback(CommitFrom(s, entries, 0), entries).raised
    requires !Rollback(Commit(s, entries).(faults := faults), entries).raised
    ensures var failed := Commit(s, entries);
      Rollback(failed.(faults := faults), entries).files == orig <==>
        forall e :: e in failed.committed && e.target in orig ==> e.backup in failed.files
  {
    ReadyIsReached(orig, s, entries);
    var stop := CommitReaches(orig, s.files, s, entries, 0);
    var done := CommitFrom(s, entries, 0);
    hide CommitFrom;
    SecondRollbackIff(orig, s.files, done, entries, stop, faults);
    hide Rollback;
  }

  /** Rolling back a full commit, as the caller does when registration fails. */
  lemma RollbackOfCommitRestores(orig: Files, s: Progress, entries: seq<Entry>)
    requires Ready(orig, s, entries) && !Commit(s, entries).raised
    ensures var r := Rollback(Commit(s, entries), entries);
      && (!r.raised ==> r.files == orig) && OriginalsKept(orig, r.files, entries)
      && (Commit(s, entries).faults == [] ==> !r.raised)
  {
    ReadyIsReached(orig, s, entries);
    var stop := CommitReaches(orig, s.files, s, entries, 0);
    RollbackEnds(orig, s.files, CommitFrom(s, entries, 0), entries, stop);
    hide CommitFrom;
    hide Rollback;
  }

  /** Without faults the commit succeeds. */
  lemma CommitSucceeds(orig: Files, s: Progress, entries: seq<Entry>)
    requires Ready(orig, s, entries) && s.faults == []
    ensures !Commit(s, entries).raised
  {
    ReadyIsReached(orig, s, entries);
    var _ := CommitReaches(orig, s.files, s, entries, 0);
  }

  /** The published state: new trees at replaced targets, nothing at removed ones, no staging and no backup. */
  ghost predicate Published(orig: Files, staged: Files, files: Files, entries: seq<Entry>) {
    && SameOutside(orig, files, entries)
    && forall i :: 0 <= i < |entries| ==>
         && entries[i].backup !in files
         && match entries[i].staging
            case Some(staging) => staging !in files && At(files, entries[i].target) == At(staged, staging)
            case None => entries[i].target !in files
  }

  /** New trees at replaced targets, nothing at removed ones, nothing staged. */
  ghost predicate NewInPlace(orig: Files, staged: Files, files: Files, entries: seq<Entry>) {
    && SameOutside(orig, files, entries)
    && forall j :: 0 <= j < |entries| ==>
         match entries[j].staging
         case Some(staging) => staging !in files && At(files, entries[j].target) == At(staged, staging)
         case None => entries[j].target !in files
  }

  /** Finalized so far: below i nothing is saved any more. */
  ghost predicate Finalizing(orig: Files, staged: Files, files: Files, entries: seq<Entry>, i: nat)
    requires i <= |entries|
  {
    NewInPlace(orig, staged, files, entries) && forall j :: 0 <= j < i ==> entries[j].backup !in files
  }

  /** Dropping the leftovers of an entry touches nothing but its backup, once its staged tree is in place. */
  lemma DropEntryStep(s: Progress, e: Entry)
    requires SelfApart(e) && !s.raised && (e.staging.Some? ==> e.staging.value !in s.files)
    ensures var d := DropEntry(s, e);
      && SameExcept(s.files, d.files, {e.backup}) && (!d.raised ==> e.backup !in d.files)
      && (s.faults == [] ==> !d.raised && d.faults == [])
  {
  }

  lemma NewStays(orig: Files, staged: Files, f: Files, g: Files, entries: seq<Entry>, i: nat)
    requires Apart(entries) && i < |entries| && NewInPlace(orig, staged, f, entries)
      && SameExcept(f, g, {entries[i].backup})
    ensures NewInPlace(orig, staged, g, entries)
    ensures forall j :: 0 <= j < |entries| && j != i ==> At(g, entries[j].backup) == At(f, entries[j].backup)
  {
    var e := entries[i];
    assert forall p :: p !in Slots(e) ==> p != e.backup;
    FrameOutside(orig, f, g, entries, i);
    hide SameOutside;
    forall j | 0 <= j < |entries|
      ensures At(g, entries[j].target) == At(f, entries[j].target)
      ensures entries[j].staging.Some? ==> At(g, entries[j].staging.value) == At(f, entries[j].staging.value)
      ensures j != i ==> At(g, entries[j].backup) == At(f, entries[j].backup)
    {
      if j != i { assert Slots(e) !! Slots(entries[j]); }
      assert SelfApart(e);
    }
  }

  lemma FinalizeOne(orig: Files, staged: Files, s: Progress, entries: seq<Entry>, i: nat)
    requires Apart(entries) && i < |entries| && !s.raised && Finalizing(orig, staged, s.files, entries, i)
    ensures var d := DropEntry(s, entries[i]);
      && Finalizing(orig, staged, d.files, entries, if d.raised then i else i + 1)
      && (s.faults == [] ==> !d.raised && d.faults == [])
  {
    var e, d := entries[i], DropEntry(s, entries[i]);
    assert SelfApart(e);
    DropEntryStep(s, e);
    hide DropEntry;
    NewStays(orig, staged, s.files, d.files, entries, i);
    hide NewInPlace;
    hide Apart;
    hide SameExcept;
  }

  lemma {:induction false} FinalizeReaches(orig: Files, staged: Files, s: Progress, entries: seq<Entry>, i: nat)
      returns (m: nat)
    requires Apart(entries) && i <= |entries| && !s.raised && Finalizing(orig, staged, s.files, entries, i)
    ensures var d := FinalizeFrom(s, entries, i);
      m <= |entries| && Finalizing(orig, staged, d.files, entries, m) && (d.raised <==> m < |entries|)
        && (s.faults == [] ==> !d.raised)
    decreases |entries| - i
  {
    hide Finalizing;
    hide DropEntry;
    hide Apart;
    m := i;
    if i < |entries| {
      FinalizeOne(orig, staged, s, entries, i);
      var d := DropEntry(s, entries[i]);
      if !d.raised { m := FinalizeReaches(orig, staged, d, entries, i + 1); }
    }
  }

  lemma CommitPutsNewInPlace(orig: Files, s: Progress, entries: seq<Entry>)
    requires Ready(orig, s, entries) && !Commit(s, entries).raised
    ensures NewInPlace(orig, s.files, Commit(s, entries).files, entries)
  {
    ReadyIsReached(orig, s, entries);
    var stop := CommitReaches(orig, s.files, s, entries, 0);
    hide CommitFrom;
  }

  /**
   A commit and its finalize leave exactly the new trees; a finalize that raises leaves at most old trees in backups.
   */
  lemma FinalizePublishes(orig: Files, s: Progress, entries: seq<Entry>)
    requires Ready(orig, s, entries) && !Commit(s, entries).raised
    ensures var d := FinalizeFrom(Commit(s, entries), entries, 0);
      && NewInPlace(orig, s.files, d.files, entries) && (!d.raised ==> Published(orig, s.files, d.files, entries))
      && (Commit(s, entries).faults == [] ==> !d.raised)
  {
    CommitPutsNewInPlace(orig, s, entries);
    var done := Commit(s, entries);
    assert !done.raised;
    hide Commit;
    var m := FinalizeReaches(orig, s.files, done, entries, 0);
    hide FinalizeFrom;
  }

  // ----- from any state

  /** Whatever stood there: a finalize that completes leaves no staging and no backup. */
  lemma {:induction false} FinalizeClears(s: Progress, entries: seq<Entry>, i: nat)
    requires Apart(entries) && i <= |entries| && !s.raised && !FinalizeFrom(s, entries, i).raised
    ensures forall j :: i <= j < |entries| ==>
      var files := FinalizeFrom(s, entries, i).files;
      entries[j].backup !in files && (entries[j].staging.Some? ==> entries[j].staging.value !in files)
    ensures FinalizeFrom(s, entries, i).files.Keys <= s.files.Keys
    decreases |entries| - i
  {
    if i < |entries| {
      var e, d := entries[i], DropEntry(s, entries[i]);
      assert SelfApart(e);
      assert d.files.Keys <= s.files.Keys;
      assert e.backup !in d.files && (e.staging.Some? ==> e.staging.value !in d.files);
      hide DropEntry;
      FinalizeClears(d, entries, i + 1);
    }
  }

  /** A sweep never touches a target that stands, nor the backup behind it. */
  lemma SweepLeavesTarget(s: Progress, e: Entry)
    requires SelfApart(e) && e.target in s.files
    ensures var n := SweepEntry(s, e);
      && At(n.files, e.target) == At(s.files, e.target) && At(n.files, e.backup) == At(s.files, e.backup)
      && (s.faults == [] && !s.raised ==> !n.raised)
  {
  }

  /** A deletion that raises in an undo leaves its rest at the target, and the old tree in the backup. */
  lemma RaisingUndoLeavesRest(s: Progress, e: Entry, rest: Option<Tree>)
    requires SelfApart(e) && e.target in s.files && !s.raised && s.faults == [Raises(rest)]
    ensures var n := UndoEntry(s, e);
      n.raised && At(n.files, e.target) == rest && At(n.files, e.backup) == At(s.files, e.backup)
  {
  }
}
