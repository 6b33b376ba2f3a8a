/** The install transaction as the program runs it: loops that change the files, proved equal to the model. */
module InstallPublisher {
  import opened Wrappers
  import opened FrozenDigest
  import opened InstallModel
  import opened RestoreProofs
  import opened InstallTheorems
  import opened InstallCleanup
  import opened SwapProofs
  import opened InstallRefusals
  import opened InstallReceipts

  /** A recorded operation that is not aborted, with no path in two roles. */
  ghost predicate Live(receipts: map<string, Receipt>, operation: string) {
    && operation in receipts
    && var r := receipts[operation];
    r.operation == operation && r.status != Aborted && Apart(r.targets)
  }

  ghost predicate Undone(receipts: map<string, Receipt>, operation: string) {
    operation in receipts && receipts[operation].operation == operation && receipts[operation].status == Aborted
  }

  /** A transaction directory and the file system around it. */
  class Publisher {
    const hash: Hash
    var files: Files
    var receipts: map<string, Receipt>
    var strays: nat
    var locked: bool
    var script: seq<Event>
    ghost var deleted: seq<Deletion>

    constructor (hash: Hash, files: Files, script: seq<Event>)
      ensures this.hash == hash && Snapshot() == World(files, map[], 0, false, script, [])
    {
      this.hash, this.files, this.script := hash, files, script;
      receipts, strays, locked, deleted := map[], 0, false, [];
    }

    ghost function Snapshot(): World
      reads this
    {
      World(files, receipts, strays, locked, script, deleted)
    }

    /** What a call has done: an absent error is success. */
    ghost function Result(error: Option<Error>): Outcome
      reads this
    {
      if error.None? then Go(Snapshot()) else Halt(Snapshot(), error.value)
    }

    method NextEvent() returns (event: Event)
      modifies this`script
      ensures event == Peek(old(Snapshot())) && Snapshot() == Tick(old(Snapshot()))
    {
      if script == [] {
        event := Event.Done;
      } else {
        event, script := script[0], script[1..];
      }
    }

    method Rename(source: Path, target: Path) returns (error: Option<Error>)
      modifies this
      ensures Result(error) == InstallModel.Rename(old(Snapshot()), source, target)
    {
      var event := NextEvent();
      match event {
        case Done =>
          if source !in files || target in files { return Some(Io); }
          files := (files - {source})[target := files[source]];
          error := None;
        case Fails(_, _) => error := Some(Io);
        case Dies(_, _) => error := Some(Crash);
      }
    }

    method Remove(p: Path) returns (error: Option<Error>)
      requires p in files
      modifies this
      ensures Result(error) == InstallModel.Remove(old(Snapshot()), p)
    {
      deleted := deleted + [Deletion(p, files[p])];
      var event := NextEvent();
      match event {
        case Done =>
          files := files - {p};
          error := None;
        case Fails(residue, _) =>
          files := Settle(files, p, residue);
          error := Some(Io);
        case Dies(residue, _) =>
          files := Settle(files, p, residue);
          error := Some(Crash);
      }
    }

    method RemoveIfPresent(p: Path) returns (error: Option<Error>)
      modifies this
      ensures Result(error) == InstallModel.RemoveIfPresent(old(Snapshot()), p)
    {
      error := None;
      if p in files { error := Remove(p); }
    }

    method CopyPackage(p: Path, package: seq<FrozenFile>) returns (error: Option<Error>)
      modifies this
      ensures Result(error) == InstallModel.CopyPackage(old(Snapshot()), p, package)
    {
      var event := NextEvent();
      match event {
        case Done =>
          files := files[p := Directory(package, "")];
          error := None;
        case Fails(residue, _) =>
          files := Settle(files, p, residue);
          error := Some(Io);
        case Dies(residue, _) =>
          files := Settle(files, p, residue);
          error := Some(Crash);
      }
    }

    method WriteReceipt(r: Receipt) returns (error: Option<Error>)
      modifies this
      ensures Result(error) == InstallModel.WriteReceipt(old(Snapshot()), r)
    {
      var event := NextEvent();
      match event {
        case Done =>
          receipts := receipts[r.operation := r];
          error := None;
        case Fails(_, stray) =>
          if stray { strays := strays + 1; }
          error := Some(Io);
        case Dies(_, stray) =>
          if stray { strays := strays + 1; }
          error := Some(Crash);
      }
    }

    method Lock() returns (error: Option<Error>)
      modifies this
      ensures Result(error) == InstallModel.Lock(old(Snapshot()))
    {
      if locked { return Some(Conflict); }
      var event := NextEvent();
      match event {
        case Done =>
          locked := true;
          error := None;
        case Fails(_, stray) =>
          locked := stray;
          error := Some(Io);
        case Dies(_, stray) =>
          locked := stray;
          error := Some(Crash);
      }
    }

    method Unlock(error: Option<Error>)
      modifies this
      ensures Result(error) == InstallModel.Unlock(old(Result(error)))
    {
      if error != Some(Crash) { locked := false; }
    }

    // ----- restoring

    method PutBack(t: Target) returns (error: Option<Error>)
      modifies this
      ensures Result(error) == InstallModel.PutBack(old(Snapshot()), t)
    {
      error := RemoveIfPresent(t.destination);
      if error.None? && t.backup in files {
        error := Rename(t.backup, t.destination);
      }
    }

    method RestoreTarget(t: Target, lenient: bool, digest: string) returns (error: Option<Error>)
      modifies this
      ensures Result(error) == InstallModel.RestoreTarget(hash, old(Snapshot()), t, lenient, digest)
    {
      error := None;
      match t.phase {
        case Prepared =>
          if t.destination in files && t.backup in files { return Some(Conflict); }
          if t.destination !in files && t.backup in files {
            error := Rename(t.backup, t.destination);
          }
        case BackedUp =>
          if t.destination in files && !lenient { return Some(Conflict); }
          error := PutBack(t);
        case Swapped =>
          if t.temp in files { return Some(Conflict); }
          if t.destination in files && !HasDigest(hash, files[t.destination], digest) { return Some(Conflict); }
          error := PutBack(t);
        case Restored =>
      }
      if error.None? {
        error := RemoveIfPresent(t.temp);
      }
    }

    method RestoreTargets(targets: seq<Target>, lenient: bool, digest: string) returns (error: Option<Error>)
      modifies this
      ensures Result(error) == RestoreDown(hash, old(Snapshot()), targets, |targets|, lenient, digest)
    {
      hide InstallModel.RestoreTarget;
      ghost var all := RestoreDown(hash, Snapshot(), targets, |targets|, lenient, digest);
      for n := |targets| downto 0
        invariant all == RestoreDown(hash, Snapshot(), targets, n, lenient, digest)
      {
        error := RestoreTarget(targets[n], lenient, digest);
        if error.Some? { return; }
      }
      error := None;
    }

    /** The read-only pass over all targets that precedes every lenient restore. */
    method CheckTargets(r: Receipt) returns (acceptable: bool)
      ensures acceptable == AllAcceptable(hash, files, r)
    {
      for i := 0 to |r.targets|
        invariant forall j :: 0 <= j < i ==> Acceptable(hash, files, r.targets[j], r.digest)
      {
        if !Acceptable(hash, files, r.targets[i], r.digest) { return false; }
      }
      acceptable := true;
    }

    // ----- install

    /** Best effort: errors are ignored, only a crash stops it. */
    method RemoveTemps(targets: seq<Target>) returns (error: Option<Error>)
      modifies this
      ensures Result(error) == InstallModel.RemoveTemps(old(Snapshot()), targets)
    {
      hide InstallModel.RemoveIfPresent;
      ghost var all := InstallModel.RemoveTemps(Snapshot(), targets);
      for i := 0 to |targets|
        invariant all == InstallModel.RemoveTemps(Snapshot(), targets[i..])
      {
        assert targets[i..][1..] == targets[i + 1..];
        error := RemoveIfPresent(targets[i].temp);
        if error == Some(Crash) { return; }
      }
      error := None;
    }

    /** Cleans up after `cause`, which is what the caller gets to see. */
    method DropTemps(cause: Error, targets: seq<Target>) returns (error: Option<Error>)
      modifies this
      ensures Result(error) == InstallModel.DropTemps(Halt(old(Snapshot()), cause), targets)
    {
      if cause == Crash { return Some(Crash); }
      error := RemoveTemps(targets);
      if error.None? { error := Some(cause); }
    }

    method Stage(req: Request) returns (error: Option<Error>, targets: seq<Target>)
      modifies this
      ensures var (o, staged) := StageFrom(old(Snapshot()), req, []);
        Result(error) == o && targets == staged
    {
      hide InstallModel.DropTemps;
      hide InstallModel.CopyPackage;
      targets := [];
      ghost var all := StageFrom(Snapshot(), req, []);
      for i := 0 to |req.destinations|
        invariant |targets| == i && all == StageFrom(Snapshot(), req, targets)
      {
        var t := MakeTarget(req, i);
        if t.temp in files || t.backup in files { return Some(Conflict), targets; }
        error := CopyPackage(t.temp, req.package);
        if error.Some? {
          error := DropTemps(error.value, targets + [t]);
          return;
        }
        targets := targets + [t];
      }
      error := None;
    }

    /** The swap loop; `live` is the receipt in memory when it stops. */
    method SwapTargets(r: Receipt) returns (error: Option<Error>, live: Receipt)
      modifies this
      ensures (Result(error), live) == SwapFrom(old(Snapshot()), r, 0)
    {
      hide InstallModel.Rename;
      hide InstallModel.WriteReceipt;
      live := r;
      ghost var all := SwapFrom(Snapshot(), r, 0);
      for i := 0 to |r.targets|
        invariant |live.targets| == |r.targets| && all == SwapFrom(Snapshot(), live, i)
      {
        var t := live.targets[i];
        if t.destination in files {
          error := Rename(t.destination, t.backup);
          if error.Some? { return; }
        }
        live := SetPhase(live, i, BackedUp);
        error := WriteReceipt(live);
        if error.Some? { return; }
        error := Rename(t.temp, t.destination);
        if error.Some? { return; }
        live := SetPhase(live, i, Swapped);
        error := WriteReceipt(live);
        if error.Some? { return; }
      }
      error := None;
    }

    method Abort(live: Receipt, cause: Error) returns (error: Option<Error>)
      modifies this
      ensures Result(error) == AbortInstall(hash, old(Snapshot()), live, cause)
    {
      hide RestoreDown;
      hide InstallModel.WriteReceipt;
      error := RestoreTargets(live.targets, false, live.digest);
      if error.Some? { return; }
      error := WriteReceipt(Closed(live));
      if error.None? { error := Some(cause); }
    }

    method InstallStaged(req: Request, targets: seq<Target>) returns (error: Option<Error>)
      requires |targets| == |req.destinations|
      modifies this
      ensures Result(error) == InstallModel.InstallStaged(hash, old(Snapshot()), req, targets)
    {
      hide SwapFrom;
      hide AbortInstall;
      hide InstallModel.WriteReceipt;
      hide InstallModel.DropTemps;
      var receipt := NewReceipt(hash, req, targets);
      error := WriteReceipt(receipt);
      if error.Some? {
        error := DropTemps(error.value, targets);
        return;
      }
      var swapError, live := SwapTargets(receipt);
      if swapError.None? {
        error := WriteReceipt(live.(status := Committed));
      } else if swapError.value == Crash {
        error := swapError;
      } else {
        error := Abort(live, swapError.value);
      }
    }

    method InstallLocked(req: Request) returns (error: Option<Error>)
      modifies this
      ensures Result(error) == InstallModel.InstallLocked(hash, old(Snapshot()), req)
    {
      hide StageFrom;
      hide InstallModel.InstallStaged;
      if req.operation in receipts {
        var previous := receipts[req.operation];
        if !ValidReceipt(previous, req.operation) { return Some(Corrupt); }
        if previous.digest != PackageDigest(hash, req) { return Some(Conflict); }
        if previous.status == Committed { return None; }
        if !Retryable(previous) { return Some(Conflict); }
      }
      if !Distinct(req.destinations) { return Some(UnsafePath); }
      var targets;
      error, targets := Stage(req);
      if error.None? {
        error := InstallStaged(req, targets);
      }
    }

    /**
     `native_install_package` for a package that has passed verification.  Whatever fails: nothing was recorded and at
     most temps of this request are left, or the durable receipt says truthfully how the transaction ended.  With all
     its names free, a failure that records nothing leaves only what it tried to delete, and nothing after one fault.
     */
    method Install(req: Request) returns (error: Option<Error>)
      modifies this
      ensures Result(error) == InstallModel.Install(hash, old(Snapshot()), req)
      ensures Proper(req) ==>
        Unrecorded(hash, old(Snapshot()), req, Result(error)) || Recorded(hash, old(Snapshot()), req, Result(error))
      ensures Proper(req) && Distinct(req.destinations) && Clean(old(files), Plan(req)) ==>
        (error.Some? && receipts == old(receipts) ==>
          && (error != Some(Crash) ==> Tidied(old(Snapshot()), Snapshot()))
          && (FailOnce(old(script)) ==> files == old(files)))
      ensures Sound(old(Snapshot()), Snapshot())
    {
      if Proper(req) { InstallEnds(hash, Snapshot(), req); }
      if Proper(req) && Distinct(req.destinations) && Clean(files, Plan(req)) {
        FailedInstallTidies(hash, Snapshot(), req);
      }
      InstallSound(hash, Snapshot(), req);
      hide InstallModel.InstallLocked;
      hide Unrecorded;
      hide InstallTheorems.Recorded;
      hide Sound;
      hide Proper;
      hide Clean;
      hide Tidied;
      if |req.destinations| == 0 || |req.destinations| > MAX_TARGETS { return Some(InvalidManifest); }
      error := Lock();
      if error.Some? { return; }
      error := InstallLocked(req);
      Unlock(error);
    }

    // ----- rollback and reconcile

    method RollbackLocked(r: Receipt) returns (error: Option<Error>)
      modifies this
      ensures Result(error) == InstallModel.RollbackLocked(hash, old(Snapshot()), r)
    {
      hide RestoreDown;
      if r.status == Aborted { return None; }
      var acceptable := CheckTargets(r);
      if !acceptable { return Some(Conflict); }
      error := RestoreTargets(r.targets, true, r.digest);
      if error.Some? { return; }
      error := WriteReceipt(Closed(r));
    }

    /** What a rollback of a recorded operation that is not aborted promises, whatever was edited from outside. */
    ghost predicate RollbackPromise(w: World, operation: string, error: Option<Error>)
      reads this
      requires operation in w.receipts
    {
      var r := w.receipts[operation];
      var acceptable := AllAcceptable(hash, w.files, r);
      var clear := acceptable && !AnyBlocked(w.files, r.targets, |r.targets|);
      && JustifiedSince(hash, w, Snapshot(), r.targets, r.digest)
      && (error == Some(Conflict) ==>
            (files == w.files <==> w.locked || !acceptable || QuietAbove(w.files, r.targets, |r.targets|)))
      && (w.script == [] && !w.locked ==> (error.None? <==> clear))
    }

    /**
     `native_rollback_transaction`.  It deletes temps and verified destinations only, a refusal leaves the files alone
     exactly if nothing was restored before it, and without faults it succeeds exactly on a clear receipt.  An aborted
     one is a success without change.
     */
    method Rollback(operation: string) returns (error: Option<Error>)
      modifies this
      ensures Result(error) == InstallModel.Rollback(hash, old(Snapshot()), operation)
      ensures Live(old(receipts), operation) ==> RollbackPromise(old(Snapshot()), operation, error)
      ensures Undone(old(receipts), operation) ==>
        && files == old(files) && receipts == old(receipts)
        && (error.None? <==> !old(locked) && Peek(old(Snapshot())).Done?)
      ensures Sound(old(Snapshot()), Snapshot())
    {
      if Live(receipts, operation) {
        RollbackDeletesOnlyVerified(hash, Snapshot(), operation);
        RefusalLeavesFiles(hash, Snapshot(), operation);
      }
      if Undone(receipts, operation) { RollbackOfAborted(hash, Snapshot(), operation); }
      RollbackSound(hash, Snapshot(), operation);
      hide InstallModel.RollbackLocked;
      hide JustifiedSince;
      hide AllAcceptable;
      hide AnyBlocked;
      hide QuietAbove;
      hide Apart;
      hide Sound;
      if operation !in receipts { return Some(NotFound); }
      var receipt := receipts[operation];
      if receipt.operation != operation { return Some(Corrupt); }
      error := Lock();
      if error.Some? { return; }
      error := RollbackLocked(receipt);
      Unlock(error);
    }

    /** `native_reconcile_transactions` over the sorted receipt files of the directory. */
    method Reconcile(listing: seq<string>) returns (error: Option<Error>)
      modifies this
      ensures Result(error) == InstallModel.Reconcile(hash, old(Snapshot()), listing)
      ensures Sound(old(Snapshot()), Snapshot())
    {
      ReconcileSound(hash, Snapshot(), listing);
      SameReceiptsSound(Snapshot(), Snapshot());
      hide Sound;
      hide InstallModel.Rollback;
      if strays > 0 || |listing| > MAX_RECEIPTS { return Some(Corrupt); }
      ghost var all := ReconcileFrom(hash, Snapshot(), listing);
      for i := 0 to |listing|
        invariant all == ReconcileFrom(hash, Snapshot(), listing[i..])
      {
        assert listing[i..][1..] == listing[i + 1..];
        var operation := listing[i];
        if operation !in receipts || !ValidReceipt(receipts[operation], operation) { return Some(Corrupt); }
        if receipts[operation].status == Started {
          error := Rollback(operation);
          if error.Some? { return; }
        }
      }
      error := None;
    }
  }
}
