/** `FileTransaction` as the publisher runs it, proved equal to the model, with what it promises its caller. */
module PublishTransaction {
  import opened StagedPublish

  /**
   `FileTransaction`: the list of committed entries grows during a commit and is emptied between a rollback's loops.
   */
  class FileTransaction {
    const entries: seq<Entry>
    var files: Files
    var committed: seq<Entry>
    var faults: seq<Fault>

    constructor (entries: seq<Entry>, files: Files, faults: seq<Fault>)
      ensures this.entries == entries && Snapshot(false) == Progress(files, [], faults, false)
    {
      this.entries, this.files, this.faults, this.committed := entries, files, faults, [];
    }

    ghost function Snapshot(raised: bool): Progress
      reads this
    {
      Progress(files, committed, faults, raised)
    }

    method NextFault() returns (fault: Fault)
      modifies this`faults
      ensures Snapshot(fault.Raises?) == Tick(old(Snapshot(false)))
      ensures fault == if old(faults) == [] then Fine else old(faults)[0]
    {
      fault := Fine;
      if faults != [] {
        fault, faults := faults[0], faults[1..];
      }
    }

    method Rename(source: Path, target: Path) returns (raised: bool)
      modifies this`files, this`faults
      ensures Snapshot(raised) == StagedPublish.Rename(old(Snapshot(false)), source, target)
    {
      var fault := NextFault();
      if fault.Raises? || source !in files || target in files { return true; }
      files := Moved(files, source, target);
      raised := false;
    }

    /** `shutil.rmtree`, if something stands there. */
    method RemoveTree(p: Path) returns (raised: bool)
      modifies this`files, this`faults
      ensures Snapshot(raised) == StagedPublish.RemoveTree(old(Snapshot(false)), p)
    {
      if p !in files { return false; }
      var fault := NextFault();
      raised := fault.Raises?;
      files := if raised then Settle(files, p, fault.residue) else files - {p};
    }

    method CommitEntries() returns (raised: bool)
      modifies this
      ensures Snapshot(raised) == CommitFrom(old(Snapshot(false)), entries, 0)
    {
      hide StagedPublish.Rename;
      ghost var all := CommitFrom(Snapshot(false), entries, 0);
      for i := 0 to |entries|
        invariant all == CommitFrom(Snapshot(false), entries, i)
      {
        var e := entries[i];
        var fault := NextFault();
        if fault.Raises? { return true; }
        if e.target in files {
          raised := Rename(e.target, e.backup);
          if raised { return; }
        }
        if e.staging.Some? {
          raised := Rename(e.staging.value, e.target);
          if raised { return; }
        }
        committed := committed + [e];
      }
      raised := false;
    }

    /**
     A commit that raises has restored every target, unless its own rollback raised too; no old tree is ever lost.
     A commit that does not raise has every new tree in place.
     */
    method Commit() returns (raised: bool)
      modifies this
      ensures Snapshot(raised) == StagedPublish.Commit(old(Snapshot(false)), entries)
      ensures forall orig :: Ready(orig, old(Snapshot(false)), entries) ==>
        && (raised ==> OriginalsKept(orig, files, entries))
        && (raised && !StagedPublish.Rollback(CommitFrom(old(Snapshot(false)), entries, 0), entries).raised ==>
              files == orig && committed == [])
        && (!raised ==> NewInPlace(orig, old(files), files, entries))
    {
      raised := CommitEntries();
      if raised {
        var _ := Rollback();
      }
      forall orig | Ready(orig, old(Snapshot(false)), entries)
        ensures raised ==> OriginalsKept(orig, files, entries)
        ensures raised && !StagedPublish.Rollback(CommitFrom(old(Snapshot(false)), entries, 0), entries).raised ==>
          files == orig && committed == []
        ensures !raised ==> NewInPlace(orig, old(files), files, entries)
      {
        if raised {
          FailedCommitRestores(orig, old(Snapshot(false)), entries);
        } else {
          CommitPutsNewInPlace(orig, old(Snapshot(false)), entries);
        }
      }
    }

    /** Undoes the committed entries, last first, then clears the list and sweeps what is left of all entries. */
    method Rollback() returns (raised: bool)
      modifies this
      ensures Snapshot(raised) == StagedPublish.Rollback(old(Snapshot(false)), entries)
    {
      hide StagedPublish.Rename;
      hide StagedPublish.RemoveTree;
      ghost var undone := UndoDown(Snapshot(false), |committed|);
      for n := |committed| downto 0
        invariant committed == old(committed) && undone == UndoDown(Snapshot(false), n)
      {
        var e := committed[n];
        raised := RemoveTree(e.target);
        if raised { return; }
        if e.backup in files {
          raised := Rename(e.backup, e.target);
          if raised { return; }
        }
      }
      committed := [];
      ghost var swept := SweepFrom(Snapshot(false), entries, 0);
      for i := 0 to |entries|
        invariant committed == [] && swept == SweepFrom(Snapshot(false), entries, i)
      {
        var e := entries[i];
        if e.staging.Some? {
          raised := RemoveTree(e.staging.value);
          if raised { return; }
        }
        if e.backup in files && e.target !in files {
          raised := Rename(e.backup, e.target);
          if raised { return; }
        }
      }
      raised := false;
    }

    method Finalize() returns (raised: bool)
      modifies this
      ensures Snapshot(raised) == FinalizeFrom(old(Snapshot(false)), entries, 0)
    {
      hide StagedPublish.RemoveTree;
      ghost var all := FinalizeFrom(Snapshot(false), entries, 0);
      for i := 0 to |entries|
        invariant committed == old(committed) && all == FinalizeFrom(Snapshot(false), entries, i)
      {
        var e := entries[i];
        if e.staging.Some? {
          raised := RemoveTree(e.staging.value);
          if raised { return; }
        }
        raised := RemoveTree(e.backup);
        if raised { return; }
      }
      raised := false;
    }
  }
}
