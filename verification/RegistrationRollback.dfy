/** Rolling back a committed registration: what every interruption keeps, and exactly when the old manifest is lost. */
module RegistrationRollback {
  import opened Wrappers
  import opened RegistrationModel
  import opened RegistrationProofs

  /** A committed receipt and the old manifest, if there was one, at the target or in the backup. */
  ghost predicate RegisteredOver(w: World, operation: string, orig: Files, nonce: nat) {
    && operation in w.receipts
    && var r := w.receipts[operation];
    && r.operation == operation && r.status == Committed && OwnSlots(orig, r, nonce)
    && SameElsewhere(orig, w.files, nonce) && Temp(nonce) !in w.files
    && (Home(orig, w.files, nonce) || InBackup(orig, w.files, nonce))
  }

  ghost predicate InBackup(orig: Files, files: Files, nonce: nat) {
    At(files, Backup(nonce)) == At(orig, Manifest)
  }

  /** The manifest stands and hashes to the receipt: the guard of the rollback. */
  predicate Unedited(h: Hash, files: Files, r: Receipt) {
    Manifest in files && h(files[Manifest]) == r.digest
  }

  // ----- one attempt

  /** The guarded part from a manifest that hashes to the receipt and an old one in the backup. */
  lemma RollbackFromBackup(h: Hash, w: World, operation: string, orig: Files, nonce: nat)
    requires RegisteredOver(w, operation, orig, nonce) && InBackup(orig, w.files, nonce)
    requires Unedited(h, w.files, w.receipts[operation])
    ensures var r := w.receipts[operation];
      var o := RollbackLocked(h, w, r);
      && (o.Go? ==> o.world.files == orig && o.world.receipts == w.receipts[operation := r.(status := RolledBack)])
      && (o.Halt? ==> RegisteredOver(o.world, operation, orig, nonce) && o.world.receipts == w.receipts)
      && (w.script == [] ==> o.Go?)
  {
    hide Remove;
    hide Rename;
    hide WriteReceipt;
    hide CrashOnly;
    hide FailOnce;
    var r := w.receipts[operation];
    RemoveStep(w, Manifest);
    var removed := Remove(w, Manifest);
    assert At(removed.world.files, Backup(nonce)) == At(w.files, Backup(nonce));
    assert At(removed.world.files, Temp(nonce)) == At(w.files, Temp(nonce));
    if removed.Go? {
      var move := r.backup.Some? && r.backup.value in removed.world.files;
      var back := if move then Rename(removed.world, r.backup.value, Manifest) else Go(removed.world);
      if move { RenameStep(removed.world, Backup(nonce), Manifest); }
      if back.Go? {
        SameMap(back.world.files, orig);
        WriteStep(back.world, r.(status := RolledBack));
        assert Home(orig, orig, nonce) && SameElsewhere(orig, orig, nonce);
      }
    }
  }

  /** With the old manifest home and hashing like the new one, what hashes to the receipt is the old manifest. */
  lemma RollbackFromHome(h: Hash, w: World, operation: string, orig: Files, nonce: nat)
    requires RegisteredOver(w, operation, orig, nonce) && Home(orig, w.files, nonce) && Manifest in orig
    requires Unedited(h, w.files, w.receipts[operation])
    ensures var o := RollbackLocked(h, w, w.receipts[operation]);
      && (o.Go? ==> Manifest !in o.world.files && Backup(nonce) !in o.world.files)
      && (w.script == [] ==> o.Go?)
  {
    RemoveStep(w, Manifest);
  }

  /**
   Any script: a manifest that does not hash to the receipt stops the rollback before any change; with the old
   manifest in the backup, completion restores the files exactly, and a stop keeps it; with the old manifest
   already home, completion deletes it.  Without faults it completes if and only if the manifest passes.
   */
  lemma RollbackEnds(h: Hash, w: World, operation: string, orig: Files, nonce: nat)
    requires RegisteredOver(w, operation, orig, nonce)
    ensures var o := Rollback(h, w, operation);
      var r := w.receipts[operation];
      && (!Unedited(h, w.files, r) ==> o.Halt? && o.world.files == w.files && o.world.receipts == w.receipts)
      && (InBackup(orig, w.files, nonce) ==>
            && (o.Go? ==>
                  && o.world.files == orig
                  && o.world.receipts == w.receipts[operation := r.(status := RolledBack)])
            && (o.Halt? ==> RegisteredOver(o.world, operation, orig, nonce) && o.world.receipts == w.receipts))
      && (Home(orig, w.files, nonce) && Manifest in orig && o.Go? ==>
            Manifest !in o.world.files && Backup(nonce) !in o.world.files)
      && (w.script == [] && !w.locked ==> (o.Go? <==> Unedited(h, w.files, r)))
  {
    var locked := Lock(w);
    if locked.Go? && Unedited(h, w.files, w.receipts[operation]) {
      if InBackup(orig, w.files, nonce) { RollbackFromBackup(h, locked.world, operation, orig, nonce); }
      if Home(orig, w.files, nonce) && Manifest in orig { RollbackFromHome(h, locked.world, operation, orig, nonce); }
      assert InBackup(orig, w.files, nonce) || (Home(orig, w.files, nonce) && Manifest in orig);
      hide RollbackLocked;
    }
    hide SameElsewhere;
  }

  /** Registering and rolling back is the identity on the files. */
  lemma RegisterThenRollback(h: Hash, w: World, req: Request)
    requires w.script == [] && !w.locked && Fresh(w.files, req.nonce) && req.operation !in w.receipts
    ensures var o := Register(h, w, req);
      && o.Go? && At(o.world.files, Manifest) == Some(req.manifest)
      && Rollback(h, o.world, req.operation).Go? && Rollback(h, o.world, req.operation).world.files == w.files
  {
    var locked := Lock(w).world;
    RegisterNewEnds(h, locked, req);
    RegisterUsesNoScript(h, locked, req);
    var o := Register(h, w, req);
    hide RegisterNew;
    assert RegisteredOver(o.world, req.operation, w.files, req.nonce) && InBackup(w.files, o.world.files, req.nonce);
    RollbackEnds(h, o.world, req.operation, w.files, req.nonce);
  }

  lemma RegisterUsesNoScript(h: Hash, w: World, req: Request)
    requires w.script == [] && Temp(req.nonce) !in w.files && RegisterNew(h, w, req).Go?
    ensures RegisterNew(h, w, req).world.script == []
    ensures Temp(req.nonce) !in RegisterNew(h, w, req).world.files
  {
  }

  // ----- any number of attempts

  /** Interrupt and rerun a rollback any number of times: attempt k meets the events of scripts[k]. */
  function RollbackReruns(h: Hash, w: World, operation: string, scripts: seq<seq<Event>>): World
    decreases |scripts|
  {
    if scripts == [] then w
    else RollbackReruns(h, Rollback(h, Reboot(w, scripts[0]), operation).world, operation, scripts[1..])
  }

  lemma {:induction false} RerunsOfRolledBack(h: Hash, w: World, operation: string, scripts: seq<seq<Event>>)
    requires operation in w.receipts && w.receipts[operation].status == RolledBack
    ensures var last := RollbackReruns(h, w, operation, scripts); last.files == w.files && last.receipts == w.receipts
    decreases |scripts|
  {
    if scripts != [] {
      RerunsOfRolledBack(h, Rollback(h, Reboot(w, scripts[0]), operation).world, operation, scripts[1..]);
    }
  }

  /**
   With an old manifest that hashes differently: however often the rollback is interrupted, either all is restored, or
   the old manifest is at the target or in the backup under an unchanged receipt, and the next fault-free attempt
   completes if and only if the manifest stands and hashes to the receipt.
   */
  lemma {:induction false} InterruptedRollback(h: Hash, w: World, operation: string, orig: Files, nonce: nat,
      scripts: seq<seq<Event>>)
    requires RegisteredOver(w, operation, orig, nonce) && OldDiffers(h, orig, w.receipts[operation].digest)
    ensures var last := RollbackReruns(h, w, operation, scripts);
      && operation in last.receipts && OldSurvives(orig, last.files, nonce)
      && if last.receipts[operation].status == RolledBack then last.files == orig
         else
           && last.receipts == w.receipts && RegisteredOver(last, operation, orig, nonce)
           && (Rollback(h, Reboot(last, []), operation).Go? <==> Unedited(h, last.files, last.receipts[operation]))
    decreases |scripts|
  {
    hide Rollback;
    if scripts == [] {
      RollbackEnds(h, Reboot(w, []), operation, orig, nonce);
    } else {
      var again := Reboot(w, scripts[0]);
      RollbackEnds(h, again, operation, orig, nonce);
      var o := Rollback(h, again, operation);
      assert !InBackup(orig, w.files, nonce) ==> !Unedited(h, w.files, w.receipts[operation]);
      if o.Go? {
        RerunsOfRolledBack(h, o.world, operation, scripts[1..]);
      } else {
        InterruptedRollback(h, o.world, operation, orig, nonce, scripts[1..]);
      }
    }
    hide SameElsewhere;
  }

  // ----- resuming

  /** A rollback that cannot pass its guard never changes anything again, and reconcile skips the committed receipt. */
  lemma {:induction false} StuckForEver(h: Hash, w: World, operation: string, scripts: seq<seq<Event>>)
    requires operation in w.receipts && w.receipts[operation].operation == operation
    requires w.receipts[operation].status == Committed && !Unedited(h, w.files, w.receipts[operation])
    ensures var last := RollbackReruns(h, w, operation, scripts);
      last.files == w.files && last.receipts == w.receipts && Recover(h, last, operation) == Go(last)
    decreases |scripts|
  {
    if scripts != [] {
      StuckForEver(h, Rollback(h, Reboot(w, scripts[0]), operation).world, operation, scripts[1..]);
    }
  }

  /**
   Some events let a committed registration be rolled back if and only if its manifest stands and hashes to the
   receipt.
   */
  lemma ResumableIff(h: Hash, w: World, operation: string, orig: Files, nonce: nat)
    requires RegisteredOver(w, operation, orig, nonce)
    ensures (exists script :: Rollback(h, Reboot(w, script), operation).Go?) <==>
      Unedited(h, w.files, w.receipts[operation])
  {
    RollbackEnds(h, Reboot(w, []), operation, orig, nonce);
    forall script ensures Rollback(h, Reboot(w, script), operation).Go? ==>
      Unedited(h, w.files, w.receipts[operation]) {
      RollbackEnds(h, Reboot(w, script), operation, orig, nonce);
    }
    hide Rollback;
    if Unedited(h, w.files, w.receipts[operation]) {
      assert Rollback(h, Reboot(w, []), operation).Go?;
    }
  }

  const DIES_AT_RENAME: seq<Event> := [Done, Done, Dies(None, false)]
  const DIES_AT_RECEIPT: seq<Event> := [Done, Done, Done, Dies(None, false)]

  /**
   A rollback that dies between the deletion and the rename is stuck: the manifest is gone, the old one in the backup.
   */
  lemma DiesAtRename(h: Hash, w: World, operation: string, orig: Files, nonce: nat)
    requires RegisteredOver(w, operation, orig, nonce) && InBackup(orig, w.files, nonce) && Manifest in orig
    requires Unedited(h, w.files, w.receipts[operation])
    ensures var o := Rollback(h, Reboot(w, DIES_AT_RENAME), operation);
      && o.Halt? && o.world.receipts == w.receipts && Manifest !in o.world.files
      && At(o.world.files, Backup(nonce)) == At(orig, Manifest)
      && !Unedited(h, o.world.files, o.world.receipts[operation])
  {
    var locked := Lock(Reboot(w, DIES_AT_RENAME)).world;
    assert locked.script == [Done, Dies(None, false)];
    var removed := Remove(locked, Manifest).world;
    assert removed.script == [Dies(None, false)];
  }

  /** A rollback that dies between the rename and its receipt leaves the old manifest home under a committed receipt. */
  lemma DiesAtReceipt(h: Hash, w: World, operation: string, orig: Files, nonce: nat)
    requires RegisteredOver(w, operation, orig, nonce) && InBackup(orig, w.files, nonce) && Manifest in orig
    requires Unedited(h, w.files, w.receipts[operation])
    ensures var o := Rollback(h, Reboot(w, DIES_AT_RECEIPT), operation);
      o.Halt? && o.world.receipts == w.receipts && o.world.files == orig
  {
    var r := w.receipts[operation];
    var locked := Lock(Reboot(w, DIES_AT_RECEIPT)).world;
    assert locked.script == [Done, Done, Dies(None, false)];
    var removed := Remove(locked, Manifest).world;
    assert removed.script == [Done, Dies(None, false)];
    var back := Rename(removed, r.backup.value, Manifest);
    assert back.Go? && back.world.script == [Dies(None, false)];
    SameMap(back.world.files, orig);
  }

  lemma RerunsTwice(h: Hash, w: World, operation: string, a: seq<Event>, b: seq<Event>)
    ensures var first := Rollback(h, Reboot(w, a), operation).world;
      RollbackReruns(h, w, operation, [a, b]) == Rollback(h, Reboot(first, b), operation).world
  {
    hide Rollback;
    var first := Rollback(h, Reboot(w, a), operation).world;
    var last := Rollback(h, Reboot(first, b), operation).world;
    assert [a, b][1..] == [b] && [b][1..] == [];
    assert RollbackReruns(h, last, operation, []) == last;
    assert RollbackReruns(h, first, operation, [b]) == last;
  }

  lemma TwoRunsLoseTheManifest(h: Hash, w: World, operation: string, orig: Files, nonce: nat)
    requires RegisteredOver(w, operation, orig, nonce) && InBackup(orig, w.files, nonce)
    requires Unedited(h, w.files, w.receipts[operation]) && !OldDiffers(h, orig, w.receipts[operation].digest)
    ensures var last := RollbackReruns(h, w, operation, [DIES_AT_RECEIPT, []]);
      Manifest !in last.files && Backup(nonce) !in last.files && !OldSurvives(orig, last.files, nonce)
  {
    DiesAtReceipt(h, w, operation, orig, nonce);
    var first := Rollback(h, Reboot(w, DIES_AT_RECEIPT), operation).world;
    hide Rollback;
    RollbackEnds(h, Reboot(first, []), operation, orig, nonce);
    RerunsTwice(h, w, operation, DIES_AT_RECEIPT, []);
  }

  /**
   After a committed registration: the old manifest survives every sequence of interrupted rollbacks if and only if
   it does not hash like the new one, or the new one has been edited so that no rollback starts.
   */
  lemma OldManifestSurvivesIff(h: Hash, w: World, operation: string, orig: Files, nonce: nat)
    requires RegisteredOver(w, operation, orig, nonce) && InBackup(orig, w.files, nonce)
    ensures var r := w.receipts[operation];
      (forall scripts :: OldSurvives(orig, RollbackReruns(h, w, operation, scripts).files, nonce))
      <==> OldDiffers(h, orig, r.digest) || !Unedited(h, w.files, r)
  {
    var r := w.receipts[operation];
    hide RollbackReruns;
    if !Unedited(h, w.files, r) {
      forall scripts ensures OldSurvives(orig, RollbackReruns(h, w, operation, scripts).files, nonce) {
        StuckForEver(h, w, operation, scripts);
      }
    } else if OldDiffers(h, orig, r.digest) {
      forall scripts ensures OldSurvives(orig, RollbackReruns(h, w, operation, scripts).files, nonce) {
        InterruptedRollback(h, w, operation, orig, nonce, scripts);
      }
    } else {
      TwoRunsLoseTheManifest(h, w, operation, orig, nonce);
    }
    hide OldSurvives;
    hide OldDiffers;
  }

  // ----- a failed registration whose undo fails

  const UNDO_FAILS: seq<Event> := [Done, Done, Done, Done, Fails(None, false), Done, Fails(None, false), Done]

  /** The second rename fails. */
  lemma SwapFails(w: World, req: Request)
    requires Fresh(w.files - {Temp(req.nonce)}, req.nonce) && Temp(req.nonce) in w.files && Manifest in w.files
    requires w.script == UNDO_FAILS[3..]
    ensures var o := Swap(w, req);
      && o.Halt? && o.why == Io && o.world.script == UNDO_FAILS[5..] && o.world.receipts == w.receipts
      && o.world.locked == w.locked
      && o.world.files == (w.files - {Manifest})[Backup(req.nonce) := w.files[Manifest]]
  {
    var saved := Rename(w, Manifest, Backup(req.nonce));
    assert saved.Go? && saved.world.script == UNDO_FAILS[4..];
  }

  /** The temp is deleted, the way home fails, the receipt is written. */
  lemma UndoFails(w: World, req: Request, r: Receipt)
    requires Temp(req.nonce) in w.files && Backup(req.nonce) in w.files && Manifest !in w.files
      && w.script == UNDO_FAILS[5..]
    ensures var o := Undo(w, req, r, Io);
      && o.Halt? && o.why == Io && o.world.files == w.files - {Temp(req.nonce)}
      && o.world.receipts == w.receipts[r.operation := r.(status := Aborted)]
  {
    var cleaned := Remove(w, Temp(req.nonce));
    assert cleaned.Go? && cleaned.world.script == UNDO_FAILS[6..];
    var back := Rename(cleaned.world, Backup(req.nonce), Manifest);
    assert back == Halt(Tick(cleaned.world), Io) && back.world.script == UNDO_FAILS[7..];
  }

  /** Up to the swap everything goes well. */
  lemma ReachesSwap(h: Hash, w: World, req: Request) returns (noted: World)
    requires w.script == UNDO_FAILS[1..] && Fresh(w.files, req.nonce)
    ensures noted == w.(files := w.files[Temp(req.nonce) := req.manifest], receipts := noted.receipts,
      script := UNDO_FAILS[3..])
    ensures var r := NewReceipt(h, w.files, req);
      noted.receipts == w.receipts[req.operation := r] && RegisterNew(h, w, req) == SwapAndCommit(noted, req, r)
  {
    var staged := Create(w, Temp(req.nonce), req.manifest);
    assert staged.Go? && staged.world.script == UNDO_FAILS[2..];
    var r := NewReceipt(h, staged.world.files, req);
    noted := WriteReceipt(staged.world, r).world;
    assert noted.script == UNDO_FAILS[3..];
    hide SwapAndCommit;
  }

  lemma RegisterNewUndoFails(h: Hash, w: World, req: Request)
    requires w.script == UNDO_FAILS[1..] && Fresh(w.files, req.nonce) && Manifest in w.files
    ensures var o := RegisterNew(h, w, req);
      && o.Halt? && o.why == Io && req.operation in o.world.receipts
        && o.world.receipts[req.operation].status == Aborted
      && o.world.receipts[req.operation].operation == req.operation
      && Manifest !in o.world.files && At(o.world.files, Backup(req.nonce)) == At(w.files, Manifest)
  {
    var noted := ReachesSwap(h, w, req);
    hide RegisterNew;
    var r := NewReceipt(h, w.files, req);
    SwapFails(noted, req);
    UndoFails(Swap(noted, req).world, req, r);
    hide Swap;
    hide Undo;
  }

  /** An aborted receipt is final: recovery skips it, rollback refuses it. */
  lemma AbortedIsFinal(h: Hash, w: World, operation: string)
    requires operation in w.receipts && w.receipts[operation].operation == operation
    requires w.receipts[operation].status == Aborted
    ensures Recover(h, w, operation) == Go(w) && Rollback(h, w, operation) == Halt(w, Conflict)
  {
  }

  /**
   The second rename fails, then the way home fails: the receipt says aborted, the old manifest is only in the backup.
   */
  lemma AbortedWithoutManifest(h: Hash, w: World, req: Request)
    requires !w.locked && Fresh(w.files, req.nonce) && req.operation !in w.receipts && Manifest in w.files
    ensures var o := Register(h, w.(script := UNDO_FAILS), req);
      && o.Halt? && o.why == Io && req.operation in o.world.receipts
        && o.world.receipts[req.operation].status == Aborted
      && Manifest !in o.world.files && At(o.world.files, Backup(req.nonce)) == At(w.files, Manifest)
      && Recover(h, o.world, req.operation) == Go(o.world)
        && Rollback(h, o.world, req.operation) == Halt(o.world, Conflict)
  {
    var locked := Lock(w.(script := UNDO_FAILS)).world;
    assert locked.script == UNDO_FAILS[1..];
    RegisterNewUndoFails(h, locked, req);
    hide RegisterNew;
    AbortedIsFinal(h, Register(h, w.(script := UNDO_FAILS), req).world, req.operation);
    hide Recover;
    hide Rollback;
  }
}
