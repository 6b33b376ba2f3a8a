/** Marketplace registration as the program runs it, proved equal to the model. */
module RegistrationStore {
  import opened Wrappers
  import opened RegistrationModel
  import opened RegistrationProofs
  import opened RegistrationRollback
  import opened RegistrationReplay

  /** A marketplace root: its manifest with temps and backups, and the registration receipts. */
  class Store {
    const hash: Hash
    var files: Files
    var receipts: map<string, Receipt>
    var strays: nat
    var locked: bool
    var script: seq<Event>

    constructor (hash: Hash, files: Files, script: seq<Event>)
      ensures this.hash == hash && Snapshot() == World(files, map[], 0, false, script)
    {
      this.hash, this.files, this.script := hash, files, script;
      receipts, strays, locked := map[], 0, false;
    }

    ghost function Snapshot(): World
      reads this
    {
      World(files, receipts, strays, locked, script)
    }

    /** What a call has done: an absent error is success. */
    ghost function Result(error: Option<Error>): Outcome
      reads this
    {
      if error.None? then Go(Snapshot()) else Halt(Snapshot(), error.value)
    }

    /** Consumes one event; the error is what a step that does not happen reports. */
    method NextEvent() returns (event: Event, error: Option<Error>)
      modifies this`script
      ensures event == Peek(old(Snapshot())) && Snapshot() == Tick(old(Snapshot()))
      ensures error == (if event.Done? then None else Some(if event.Fails? then Io else Crash))
    {
      if script == [] {
        event := Done;
      } else {
        event, script := script[0], script[1..];
      }
      error := if event.Done? then None else Some(if event.Fails? then Io else Crash);
    }

    method Rename(source: Slot, target: Slot) returns (error: Option<Error>)
      modifies this
      ensures Result(error) == RegistrationModel.Rename(old(Snapshot()), source, target)
    {
      var event;
      event, error := NextEvent();
      if error.Some? { return; }
      if source !in files { return Some(Io); }
      files := (files - {source})[target := files[source]];
    }

    method Remove(s: Slot) returns (error: Option<Error>)
      modifies this
      ensures Result(error) == RegistrationModel.Remove(old(Snapshot()), s)
    {
      var event;
      event, error := NextEvent();
      if error.Some? { return; }
      if s !in files { return Some(Io); }
      files := files - {s};
    }

    method Create(s: Slot, content: Bytes) returns (error: Option<Error>)
      modifies this
      ensures Result(error) == RegistrationModel.Create(old(Snapshot()), s, content)
    {
      if s in files { return Some(Io); }
      var event;
      event, error := NextEvent();
      if event.Done? {
        files := files[s := content];
      } else if event.residue.Some? {
        files := files[s := event.residue.value];
      }
    }

    method WriteReceipt(r: Receipt) returns (error: Option<Error>)
      modifies this
      ensures Result(error) == RegistrationModel.WriteReceipt(old(Snapshot()), r)
    {
      var event;
      event, error := NextEvent();
      if event.Done? {
        receipts := receipts[r.operation := r];
      } else if event.stray {
        strays := strays + 1;
      }
    }

    method Lock() returns (error: Option<Error>)
      modifies this
      ensures Result(error) == RegistrationModel.Lock(old(Snapshot()))
    {
      if locked { return Some(Conflict); }
      var event;
      event, error := NextEvent();
      locked := event.Done? || event.stray;
    }

    method Unlock(error: Option<Error>)
      modifies this
      ensures Result(error) == RegistrationModel.Unlock(old(Result(error)))
    {
      if error != Some(Crash) { locked := false; }
    }

    method Swap(req: Request) returns (error: Option<Error>)
      modifies this
      ensures Result(error) == RegistrationModel.Swap(old(Snapshot()), req)
    {
      if Manifest in files {
        error := Rename(Manifest, Backup(req.nonce));
        if error.Some? { return; }
      }
      error := Rename(Temp(req.nonce), Manifest);
    }

    method Undo(req: Request, r: Receipt, cause: Error) returns (error: Option<Error>)
      modifies this
      ensures Result(error) == RegistrationModel.Undo(old(Snapshot()), req, r, cause)
    {
      hide RegistrationModel.Remove;
      hide RegistrationModel.Rename;
      hide RegistrationModel.WriteReceipt;
      error := Remove(Temp(req.nonce));
      if error == Some(Crash) { return; }
      if Backup(req.nonce) in files && Manifest !in files {
        error := Rename(Backup(req.nonce), Manifest);
        if error == Some(Crash) { return; }
      }
      error := WriteReceipt(r.(status := Aborted));
      if error == Some(Crash) { return; }
      error := Some(cause);
    }

    method RegisterNew(req: Request) returns (error: Option<Error>)
      modifies this
      ensures Result(error) == RegistrationModel.RegisterNew(hash, old(Snapshot()), req)
    {
      hide RegistrationModel.Swap;
      hide RegistrationModel.Undo;
      error := Create(Temp(req.nonce), req.manifest);
      if error.Some? { return; }
      var receipt := NewReceipt(hash, files, req);
      error := WriteReceipt(receipt);
      if error.Some? {
        if error != Some(Crash) {
          var cleaned := Remove(Temp(req.nonce));
          if cleaned == Some(Crash) { error := cleaned; }
        }
        return;
      }
      error := Swap(req);
      if error.None? {
        error := WriteReceipt(receipt.(status := Committed));
      } else if error != Some(Crash) {
        error := Undo(req, receipt, error.value);
      }
    }

    /**
     `native_register_marketplace` for a manifest rendered from a valid plugin.  Whatever fails, the manifest that was
     there is at the target or in the backup when the call is over.  An id that has a receipt changes nothing, and
     succeeds exactly as a replay of the same committed registration.
     */
    method Register(req: Request) returns (error: Option<Error>)
      modifies this
      ensures Result(error) == RegistrationModel.Register(hash, old(Snapshot()), req)
      ensures Fresh(old(files), req.nonce) ==> OldSurvives(old(files), files, req.nonce)
      ensures req.operation in old(receipts) ==>
        && files == old(files) && receipts == old(receipts)
        && (error.None? <==>
              (!old(locked) && Peek(old(Snapshot())).Done? && Replays(hash, old(receipts)[req.operation], req)))
    {
      if req.operation in receipts { RegisterAgain(hash, Snapshot(), req); }
      if Fresh(files, req.nonce) && Manifest in files { RegisterKeepsOldManifest(hash, Snapshot(), req); }
      hide Fresh;
      hide RegistrationModel.RegisterNew;
      error := Lock();
      if error.Some? { return; }
      if req.operation in receipts {
        var previous := receipts[req.operation];
        if previous.operation != req.operation {
          error := Some(Corrupt);
        } else if previous.digest != hash(req.manifest) || previous.version != req.version
          || previous.status != Committed {
          error := Some(Conflict);
        }
      } else {
        error := RegisterNew(req);
      }
      Unlock(error);
    }

    method RollbackLocked(r: Receipt) returns (error: Option<Error>)
      modifies this
      ensures Result(error) == RegistrationModel.RollbackLocked(hash, old(Snapshot()), r)
    {
      if Manifest !in files { return Some(Io); }
      if hash(files[Manifest]) != r.digest { return Some(Conflict); }
      error := Remove(Manifest);
      if error.Some? { return; }
      if r.backup.Some? && r.backup.value in files {
        error := Rename(r.backup.value, Manifest);
        if error.Some? { return; }
      }
      error := WriteReceipt(r.(status := RolledBack));
    }

    /**
     `native_rollback_registration` of a committed receipt.  A manifest that does not hash to the receipt is not
     touched; with the old manifest in the backup, success restores the files and a stop keeps it.
     */
    method Rollback(operation: string) returns (error: Option<Error>)
      modifies this
      ensures Result(error) == RegistrationModel.Rollback(hash, old(Snapshot()), operation)
      ensures forall orig, nonce :: RegisteredOver(old(Snapshot()), operation, orig, nonce) ==>
        && (!Unedited(hash, old(files), old(receipts)[operation]) ==> error.Some? && files == old(files))
        && (InBackup(orig, old(files), nonce) ==>
          if error.None? then files == orig else OldSurvives(orig, files, nonce))
    {
      ghost var w := Snapshot();
      forall orig, nonce | RegisteredOver(w, operation, orig, nonce)
        ensures var o := RegistrationModel.Rollback(hash, w, operation);
          && (!Unedited(hash, w.files, w.receipts[operation]) ==> o.Halt? && o.world.files == w.files)
          && (InBackup(orig, w.files, nonce) ==>
                if o.Go? then o.world.files == orig else OldSurvives(orig, o.world.files, nonce))
      {
        RollbackEnds(hash, w, operation, orig, nonce);
      }
      hide RegisteredOver;
      hide InBackup;
      hide OldSurvives;
      hide RegistrationModel.RollbackLocked;
      if operation !in receipts { return Some(NotFound); }
      var receipt := receipts[operation];
      if receipt.status != Committed { return Some(Conflict); }
      error := Lock();
      if error.Some? { return; }
      if receipt.operation != operation {
        error := Some(Corrupt);
      } else {
        error := RollbackLocked(receipt);
      }
      Unlock(error);
    }

    method RecoverLocked(r: Receipt) returns (error: Option<Error>)
      modifies this
      ensures Result(error) == RegistrationModel.RecoverLocked(hash, old(Snapshot()), r)
    {
      if Manifest in files {
        if hash(files[Manifest]) != r.digest { return Some(Conflict); }
        error := Remove(Manifest);
        if error.Some? { return; }
      }
      if r.temp in files {
        error := Remove(r.temp);
        if error.Some? { return; }
      }
      if r.backup.Some? && r.backup.value in files && Manifest !in files {
        error := Rename(r.backup.value, Manifest);
        if error.Some? { return; }
      }
      error := WriteReceipt(r.(status := Aborted));
    }

    /** `native_reconcile_registrations` over the sorted receipt files of the directory. */
    method Reconcile(listing: seq<string>) returns (error: Option<Error>)
      modifies this
      ensures Result(error) == RegistrationModel.Reconcile(hash, old(Snapshot()), listing)
    {
      hide RegistrationModel.RecoverLocked;
      if strays > 0 || |listing| > MAX_RECEIPTS { return Some(Corrupt); }
      ghost var all := ReconcileFrom(hash, Snapshot(), listing);
      for i := 0 to |listing|
        invariant all == ReconcileFrom(hash, Snapshot(), listing[i..])
      {
        assert listing[i..][1..] == listing[i + 1..];
        var operation := listing[i];
        if operation !in receipts || receipts[operation].operation != operation { return Some(Corrupt); }
        if receipts[operation].status == Started {
          error := Lock();
          if error.Some? { return; }
          error := RecoverLocked(receipts[operation]);
          Unlock(error);
          if error.Some? { return; }
        }
      }
      error := None;
    }
  }
}
