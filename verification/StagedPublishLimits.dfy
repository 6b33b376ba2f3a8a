/** Exactly when the second rollback of a staged transaction by its caller is safe, however steps raise. */
module StagedPublishLimits {
  import opened Wrappers
  import opened StagedPublish

  /** A commit under the faults `before`. */
  function Attempt(s: Progress, entries: seq<Entry>, before: seq<Fault>): Progress {
    Commit(s.(faults := before), entries)
  }

  /** The rollback of its caller, should it raise, under the faults `after`. */
  function Again(s: Progress, entries: seq<Entry>, before: seq<Fault>, after: seq<Fault>): Progress {
    Rollback(Attempt(s, entries, before).(faults := after), entries)
  }

  /** If the commit raises and the caller's rollback completes, the original files are back. */
  ghost predicate CallerRestores(orig: Files, s: Progress, entries: seq<Entry>, before: seq<Fault>, after: seq<Fault>) {
    Attempt(s, entries, before).raised && !Again(s, entries, before, after).raised ==>
      Again(s, entries, before, after).files == orig
  }

  /**
   Every old tree that the commit replaces before the last entry has only removals of nothing before it, so that no
   rollback can raise once that tree is back.
   */
  ghost predicate Safe(orig: Files, entries: seq<Entry>) {
    forall k, j :: 0 <= k < j < |entries| - 1 && entries[j].target in orig ==> Still(orig, entries[k])
  }

  // ----- safe transactions

  lemma SafeListKeepsBackups(orig: Files, first: Progress, entries: seq<Entry>, m: nat, i: nat)
    requires Safe(orig, entries) && 0 < m <= i < |entries| && first.committed == entries[..i]
    requires Undoing(orig, first.files, entries, m, i) && !Still(orig, entries[m - 1])
    ensures forall e :: e in first.committed && e.target in orig ==> e.backup in first.files
  {
    forall e | e in first.committed && e.target in orig ensures e.backup in first.files {
      var j :| 0 <= j < i && entries[j] == e;
      assert j < m;
      assert Torn(orig, first.files, e);
    }
  }

  lemma SafeCallerRestores(orig: Files, s: Progress, entries: seq<Entry>, after: seq<Fault>)
    requires Ready(orig, s, entries) && Safe(orig, entries) && Commit(s, entries).raised
    requires !Rollback(Commit(s, entries).(faults := after), entries).raised
    ensures Rollback(Commit(s, entries).(faults := after), entries).files == orig
  {
    var done := CommitFrom(s, entries, 0);
    if !Rollback(done, entries).raised {
      FailedCommitRestores(orig, s, entries);
      var again := Commit(s, entries).(faults := after, raised := false);
      assert again.files == orig && again.committed == [];
      hide Commit;
      AllHomeIsSwept(orig, again, entries, 0);
    } else {
      ReadyIsReached(orig, s, entries);
      var stop := CommitReaches(orig, s.files, s, entries, 0);
      hide CommitFrom;
      ReachedIsUndoing(orig, s.files, done, entries, stop);
      var m := RollbackStops(orig, done, entries, stop);
      if m > 0 {
        assert Replaced(orig, done.files, entries[m - 1]);
        SafeListKeepsBackups(orig, Rollback(done, entries), entries, m, stop);
      }
      CallersRollbackIff(orig, s, entries, after);
      hide Rollback;
      hide Safe;
      hide Undoing;
      hide Reached;
    }
  }

  // ----- unsafe transactions: replaying fault-free steps in front of a fault

  lemma ReplayCommitEntry(s: Progress, e: Entry, orig: Files, rest: seq<Fault>) returns (trail: seq<Fault>)
    requires SelfApart(e) && Waiting(orig, s.files, e) && !s.raised && s.faults == []
    ensures CommitEntry(s.(faults := trail), e) == CommitEntry(s, e).(faults := rest)
  {
    var move := if e.staging.Some? then [Fine] + rest else rest;
    var save := if e.target in s.files then [Fine] + move else move;
    trail := [Fine] + save;
    assert trail[1..] == save && ([Fine] + move)[1..] == move && ([Fine] + rest)[1..] == rest;
  }

  /** The commit loop from entry i up to entry `stop`. */
  ghost function CommitTo(s: Progress, entries: seq<Entry>, i: nat, stop: nat): Progress
    requires i <= stop <= |entries|
    decreases stop - i
  {
    if i == stop then s else CommitTo(CommitEntry(s, entries[i]), entries, i + 1, stop)
  }

  lemma {:induction false} ReplayCommit(orig: Files, staged: Files, s: Progress, entries: seq<Entry>, i: nat,
      stop: nat, rest: seq<Fault>) returns (trail: seq<Fault>)
    requires Apart(entries) && i <= stop <= |entries| && !s.raised && s.faults == []
    requires Reached(orig, staged, s, entries, i)
    ensures var v := CommitTo(s, entries, i, stop);
      && CommitFrom(s.(faults := trail), entries, i) == CommitFrom(v.(faults := rest), entries, stop)
      && Reached(orig, staged, v, entries, stop) && !v.raised && v.faults == []
    decreases stop - i
  {
    hide CommitEntry;
    if i == stop {
      trail := rest;
    } else {
      CommitOne(orig, staged, s, entries, i);
      var next := CommitEntry(s, entries[i]);
      trail := ReplayCommit(orig, staged, next, entries, i + 1, stop, rest);
      assert SelfApart(entries[i]) && Waiting(orig, s.files, entries[i]);
      hide Reached;
      hide Apart;
      trail := ReplayCommitEntry(s, entries[i], orig, trail);
    }
  }

  lemma ReplayUndoEntry(s: Progress, e: Entry, rest: seq<Fault>) returns (trail: seq<Fault>)
    requires !s.raised && s.faults == [] && !UndoEntry(s, e).raised
    ensures UndoEntry(s.(faults := trail), e) == UndoEntry(s, e).(faults := rest)
  {
    var move := if e.backup in RemoveTree(s, e.target).files then [Fine] + rest else rest;
    trail := if e.target in s.files then [Fine] + move else move;
    assert ([Fine] + move)[1..] == move && ([Fine] + rest)[1..] == rest;
  }

  lemma {:induction false} ReplayUndo(orig: Files, s: Progress, entries: seq<Entry>, n: nat, k: nat, i: nat,
      rest: seq<Fault>) returns (trail: seq<Fault>, v: Progress)
    requires Apart(entries) && k <= n <= i <= |entries| && !s.raised && s.faults == [] && s.committed == entries[..i]
    requires Undoing(orig, s.files, entries, n, i)
    ensures Undoing(orig, v.files, entries, k, i) && !v.raised && v.faults == [] && v.committed == s.committed
    ensures UndoDown(s.(faults := trail), n) == UndoDown(v.(faults := rest), k)
    ensures forall j :: 0 <= j < k ==> At(v.files, entries[j].target) == At(s.files, entries[j].target)
    decreases n
  {
    hide UndoEntry;
    hide Undoing;
    hide Apart;
    if n == k {
      trail, v := rest, s;
    } else {
      UndoOne(orig, s, entries, n - 1, i);
      assert entries[..i][n - 1] == entries[n - 1];
      var next := UndoEntry(s, entries[n - 1]);
      trail, v := ReplayUndo(orig, next, entries, n - 1, k, i, rest);
      trail := ReplayUndoEntry(s, entries[n - 1], trail);
    }
  }

  /** The next step is where the undo raises, if there is anything to undo. */
  lemma UndoEntryRaises(s: Progress, e: Entry, orig: Files)
    requires Torn(orig, s.files, e) && !Still(orig, e) && (e.staging.Some? ==> e.target in s.files)
    requires s.faults == [Raises(None)] && !s.raised
    ensures UndoEntry(s, e).raised
  {
  }

  lemma UndoRaises(orig: Files, s: Progress, entries: seq<Entry>, k: nat, i: nat)
    requires Apart(entries) && k < i <= |entries| && !s.raised && s.committed == entries[..i]
    requires Undoing(orig, s.files, entries, k + 1, i) && s.faults == [Raises(None)]
    requires !Still(orig, entries[k]) && (entries[k].staging.Some? ==> entries[k].target in s.files)
    ensures var d := UndoDown(s, k + 1);
      d.raised && d.committed == s.committed && Undoing(orig, d.files, entries, k + 1, i)
  {
    UndoOne(orig, s, entries, k, i);
    assert Torn(orig, s.files, entries[k]);
    hide Apart;
    hide Undoing;
    hide Torn;
    UndoEntryRaises(s, entries[k], orig);
    assert entries[..i][k] == entries[k];
    hide UndoEntry;
    hide Still;
  }

  // ----- unsafe transactions: the first rollback restores entry j and raises at entry k

  /** Of a commit that raises at its last step before entry j + 1: the rollback raises at entry k, with entry j home. */
  lemma FirstRollbackRaises(orig: Files, staged: Files, s: Progress, entries: seq<Entry>, k: nat, j: nat)
      returns (trail: seq<Fault>)
    requires Apart(entries) && k < j < |entries| - 1 && s.faults == [] && !s.raised
    requires Reached(orig, staged, s, entries, j + 1) && !Still(orig, entries[k])
    ensures var first := Rollback(s.(faults := trail), entries);
      && first.raised && first.committed == entries[..j + 1]
      && Undoing(orig, first.files, entries, k + 1, j + 1)
  {
    hide Apart;
    hide Undoing;
    hide UndoDown;
    hide Still;
    ReachedIsUndoing(orig, staged, s, entries, j + 1);
    assert Replaced(orig, s.files, entries[k]) && !s.raised ==> s.(raised := false) == s;
    hide Reached;
    var v: Progress;
    trail, v := ReplayUndo(orig, s, entries, j + 1, k + 1, j + 1, [Raises(None)]);
    assert At(v.files, entries[k].target) == At(s.files, entries[k].target);
    UndoRaises(orig, v.(faults := [Raises(None)]), entries, k, j + 1);
  }

  lemma RedoCompletes(orig: Files, s: Progress, entries: seq<Entry>, n: nat, m: nat, i: nat)
    requires Apart(entries) && m <= i <= |entries| && n < i && !s.raised && s.faults == []
    requires Redoing(orig, s.files, entries, n + 1, m, i)
    ensures var d := UndoEntry(s, entries[n]); !d.raised && d.faults == []
  {
    assert SelfApart(entries[n]);
    if n < m { UndoEntryStep(s, entries[n], orig); } else { assert Home(orig, s.files, entries[n]); }
  }

  lemma {:induction false} RedoAllCompletes(orig: Files, s: Progress, entries: seq<Entry>, n: nat, m: nat, i: nat)
    requires Apart(entries) && m <= i <= |entries| && n <= i && !s.raised && s.committed == entries[..i]
    requires s.faults == [] && Redoing(orig, s.files, entries, n, m, i)
    ensures var d := UndoDown(s, n); !d.raised && d.faults == [] && Redoing(orig, d.files, entries, 0, m, i)
    decreases n
  {
    hide Redoing;
    hide UndoEntry;
    hide Apart;
    if n > 0 {
      assert entries[..i][n - 1] == entries[n - 1];
      RedoCompletes(orig, s, entries, n - 1, m, i);
      RedoOne(orig, s, entries, n - 1, m, i);
      RedoAllCompletes(orig, UndoEntry(s, entries[n - 1]), entries, n - 1, m, i);
    }
  }

  /** Without further faults the second rollback completes. */
  lemma SecondRollbackCompletes(orig: Files, first: Progress, entries: seq<Entry>, m: nat, i: nat)
    requires Apart(entries) && 0 < m <= i <= |entries| && first.committed == entries[..i]
    requires Undoing(orig, first.files, entries, m, i)
    ensures !Rollback(first.(faults := []), entries).raised
  {
    var again := first.(faults := [], raised := false);
    assert Redoing(orig, again.files, entries, i, m, i);
    RedoAllCompletes(orig, again, entries, i, m, i);
    var undone := UndoDown(again, i);
    RedoneIsSweepable(orig, undone.files, entries, m, i);
    hide Redoing;
    hide Sweeping;
    hide Undoing;
    var _ := SweepReaches(Without(orig, entries, m, i), undone.(committed := []), entries, 0);
  }

  /** The second rollback deletes the tree of entry j, which the first one had restored before it raised. */
  lemma SecondRollbackDeletes(orig: Files, first: Progress, entries: seq<Entry>, m: nat, j: nat)
    requires Apart(entries) && Fresh(orig, entries) && 0 < m <= j < |entries| && entries[j].target in orig
    requires first.committed == entries[..j + 1] && Undoing(orig, first.files, entries, m, j + 1)
    ensures At(first.files, entries[j].target) == At(orig, entries[j].target)
    ensures var second := Rollback(first.(faults := []), entries);
      !second.raised && entries[j].target !in second.files && entries[j].backup !in second.files
  {
    hide Rollback;
    assert Home(orig, first.files, entries[j]);
    assert entries[..j + 1][j] == entries[j];
    SecondRollbackCompletes(orig, first, entries, m, j + 1);
    SecondFromUndoing(orig, first, entries, m, j + 1, []);
    hide Undoing;
    hide Apart;
    hide Fresh;
  }

  /** The commit goes well up to entry j, raises at entry j + 1, and its rollback meets the faults `undo`. */
  lemma CommitRaisesAfter(orig: Files, s: Progress, entries: seq<Entry>, j: nat, undo: seq<Fault>)
      returns (before: seq<Fault>)
    requires Ready(orig, s, entries) && j < |entries| - 1 && s.faults == []
    ensures var v := CommitTo(s, entries, 0, j + 1);
      && !v.raised && Reached(orig, s.files, v, entries, j + 1) && v.faults == []
      && Commit(s.(faults := before), entries) == Rollback(v.(faults := undo), entries).(raised := true)
  {
    ReadyIsReached(orig, s, entries);
    before := ReplayCommit(orig, s.files, s, entries, 0, j + 1, [Raises(None)] + undo);
    var v := CommitTo(s, entries, 0, j + 1);
    var raising := v.(faults := [Raises(None)] + undo);
    assert ([Raises(None)] + undo)[1..] == undo;
    var done := v.(faults := undo, raised := true);
    assert CommitEntry(raising, entries[j + 1]) == done;
    hide CommitEntry;
    assert CommitFrom(raising, entries, j + 1) == done;
    hide CommitFrom;
    hide Reached;
    assert done.(raised := false) == v.(faults := undo, raised := false);
    hide UndoDown;
    hide SweepFrom;
  }

  /**
   Any transaction with an entry j that is neither first nor last and replaces or removes an old tree, and an entry k
   before it that is not a removal of nothing: some faults make the commit raise and its rollback raise after entry j
   was restored, and the caller's rollback, without any fault, then deletes that tree.
   */
  lemma UnsafeCallerLoses(orig: Files, s: Progress, entries: seq<Entry>, k: nat, j: nat)
      returns (before: seq<Fault>)
    requires Ready(orig, s, entries)
    requires k < j < |entries| - 1 && entries[j].target in orig && !Still(orig, entries[k])
    ensures var failed, second := Attempt(s, entries, before), Again(s, entries, before, []);
      && failed.raised && At(failed.files, entries[j].target) == At(orig, entries[j].target)
      && !second.raised && entries[j].target !in second.files && entries[j].backup !in second.files
  {
    var start := s.(faults := []);
    hide Rollback;
    hide Commit;
    hide CommitTo;
    hide Reached;
    hide Undoing;
    hide Apart;
    hide Fresh;
    hide Still;
    var _ := CommitRaisesAfter(orig, start, entries, j, []);
    var v := CommitTo(start, entries, 0, j + 1);
    var undo := FirstRollbackRaises(orig, s.files, v, entries, k, j);
    before := CommitRaisesAfter(orig, start, entries, j, undo);
    var first := Rollback(v.(faults := undo), entries);
    assert s.(faults := before) == start.(faults := before) && first.(raised := true) == first;
    SecondRollbackDeletes(orig, first, entries, k + 1, j);
  }

  // ----- main results

  /**
   A transaction over any number of entries: under all faults a commit that raises, followed by a rollback of its caller
   that completes, leaves the original files, if and only if the transaction is safe.
   */
  lemma CallerRestoresIff(orig: Files, s: Progress, entries: seq<Entry>)
    requires Ready(orig, s, entries)
    ensures (forall before, after :: CallerRestores(orig, s, entries, before, after)) <==> Safe(orig, entries)
  {
    hide Commit;
    hide Rollback;
    hide Still;
    if Safe(orig, entries) {
      forall before, after ensures CallerRestores(orig, s, entries, before, after) {
        var start := s.(faults := before);
        assert Ready(orig, start, entries);
        if Commit(start, entries).raised && !Rollback(Commit(start, entries).(faults := after), entries).raised {
          SafeCallerRestores(orig, start, entries, after);
        }
      }
    } else {
      var k, j :| 0 <= k < j < |entries| - 1 && entries[j].target in orig && !Still(orig, entries[k]);
      var before := UnsafeCallerLoses(orig, s, entries, k, j);
      assert !CallerRestores(orig, s, entries, before, []);
    }
    hide Prepared;
  }

  /** The publisher's own transactions have at most two entries, and its second rollback is safe. */
  lemma PublishersRollbackRestores(orig: Files, s: Progress, entries: seq<Entry>, before: seq<Fault>,
      after: seq<Fault>)
    requires Ready(orig, s, entries) && |entries| <= 2
    ensures CallerRestores(orig, s, entries, before, after)
  {
    CallerRestoresIff(orig, s, entries);
    hide CallerRestores;
  }
}
