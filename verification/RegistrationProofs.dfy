/** Where the old manifest is after every stop of a registration, and what recovery does with it. */
module RegistrationProofs {
  import opened Wrappers
  import opened RegistrationModel

  ghost predicate Fresh(files: Files, nonce: nat) {
    Temp(nonce) !in files && Backup(nonce) !in files
  }

  ghost predicate SameElsewhere(orig: Files, files: Files, nonce: nat) {
    forall s :: s != Manifest && s != Temp(nonce) && s != Backup(nonce) ==> At(orig, s) == At(files, s)
  }

  /** The old manifest is in place. */
  ghost predicate Home(orig: Files, files: Files, nonce: nat) {
    At(files, Manifest) == At(orig, Manifest) && Backup(nonce) !in files
  }

  /** The old manifest, if there was one, is in the backup; the target is free or holds the new manifest. */
  ghost predicate Saved(h: Hash, orig: Files, files: Files, r: Receipt, nonce: nat) {
    At(files, Backup(nonce)) == At(orig, Manifest) && Acceptable(h, files, r)
  }

  ghost predicate OwnSlots(orig: Files, r: Receipt, nonce: nat) {
    && r.temp == Temp(nonce) && Fresh(orig, nonce)
    && r.backup == if Manifest in orig then Some(Backup(nonce)) else None
  }

  ghost predicate OldDiffers(h: Hash, orig: Files, digest: string) {
    Manifest in orig ==> h(orig[Manifest]) != digest
  }

  /** What recovery can tell from the files: the target is free or hashes to the receipt's digest. */
  predicate Acceptable(h: Hash, files: Files, r: Receipt) {
    Manifest in files ==> h(files[Manifest]) == r.digest
  }

  lemma SameMap(f: Files, g: Files)
    requires forall s :: At(f, s) == At(g, s)
    ensures f == g
  {
    assert forall s :: s in f <==> At(f, s).Some?;
    assert forall s :: s in g <==> At(g, s).Some?;
  }

  // ----- crashes of a registration

  /** The first event that is not done is a crash. */
  predicate CrashOnly(script: seq<Event>) {
    script == [] || script[0].Dies? || (script[0].Done? && CrashOnly(script[1..]))
  }

  /** One failure, and nothing after it. */
  predicate FailOnce(script: seq<Event>) {
    script != [] && ((script[0].Fails? && |script| == 1) || (script[0].Done? && FailOnce(script[1..])))
  }

  /** The three places where a crash can leave the files between the first and the last receipt. */
  ghost predicate CrashState(orig: Files, req: Request, files: Files) {
    var was := At(orig, Manifest);
    var staged := At(files, Temp(req.nonce)) == Some(req.manifest);
    && SameElsewhere(orig, files, req.nonce)
    && (|| (Home(orig, files, req.nonce) && staged)
        || (was.Some? && Manifest !in files && At(files, Backup(req.nonce)) == was && staged)
        || (At(files, Manifest) == Some(req.manifest) && At(files, Backup(req.nonce)) == was
          && Temp(req.nonce) !in files))
  }

  /** How a step that needs no luck uses the script. */
  ghost predicate Faithful(w: World, o: Outcome) {
    && (o.Halt? ==> o.why == Io || o.why == Crash)
    && (w.script == [] ==> o.Go? && o.world.script == [])
    && (CrashOnly(w.script) ==> (o.Go? && CrashOnly(o.world.script)) || (o.Halt? && o.why == Crash))
    && (FailOnce(w.script) ==> (o.Go? && FailOnce(o.world.script)) || (o.Halt? && o.why == Io && o.world.script == []))
  }

  ghost predicate SameExcept(f: Files, g: Files, slots: set<Slot>) {
    forall s :: s !in slots ==> At(f, s) == At(g, s)
  }

  ghost predicate OnlyFiles(w: World, o: Outcome) {
    o.world.receipts == w.receipts && (o.Halt? ==> o.world.files == w.files && (o.why == Io || o.why == Crash))
  }

  lemma RenameStep(w: World, source: Slot, target: Slot)
    requires source != target && source in w.files
    ensures var o := Rename(w, source, target);
      && OnlyFiles(w, o) && Faithful(w, o) && SameExcept(w.files, o.world.files, {source, target})
      && (o.Go? ==> source !in o.world.files && At(o.world.files, target) == At(w.files, source))
  {
  }

  lemma RemoveStep(w: World, s: Slot)
    requires s in w.files
    ensures var o := Remove(w, s);
      && OnlyFiles(w, o) && Faithful(w, o) && SameExcept(w.files, o.world.files, {s})
      && (o.Go? ==> s !in o.world.files)
  {
  }

  lemma WriteStep(w: World, r: Receipt)
    ensures var o := WriteReceipt(w, r);
      && Faithful(w, o) && o.world.files == w.files
      && o.world.receipts == if o.Go? then w.receipts[r.operation := r] else w.receipts
  {
  }

  lemma FaithfulChain(w: World, o: Outcome, q: Outcome)
    requires o.Go? && Faithful(w, o) && Faithful(o.world, q)
    ensures Faithful(w, q)
  {
  }

  lemma SwapEnds(w: World, req: Request, orig: Files)
    requires Fresh(orig, req.nonce) && w.files == orig[Temp(req.nonce) := req.manifest]
    ensures var o := Swap(w, req);
      && o.world.receipts == w.receipts && CrashState(orig, req, o.world.files) && Faithful(w, o)
      && (o.Go? <==> Temp(req.nonce) !in o.world.files)
  {
    hide Rename;
    hide Faithful;
    hide CrashOnly;
    hide FailOnce;
    var saved := if Manifest in w.files then Rename(w, Manifest, Backup(req.nonce)) else Go(w);
    if Manifest in w.files {
      RenameStep(w, Manifest, Backup(req.nonce));
    } else {
      FaithfulSkip(w);
    }
    if saved.Go? {
      assert At(saved.world.files, Temp(req.nonce)) == At(w.files, Temp(req.nonce));
      RenameStep(saved.world, Temp(req.nonce), Manifest);
      FaithfulChain(w, saved, Rename(saved.world, Temp(req.nonce), Manifest));
    }
  }

  lemma FaithfulSkip(w: World)
    ensures Faithful(w, Go(w))
  {
  }

  /** The old manifest is at the target or, with the target free, in the backup. */
  ghost predicate Kept(orig: Files, files: Files, nonce: nat) {
    && SameElsewhere(orig, files, nonce)
    && (Home(orig, files, nonce) || (Manifest !in files && At(files, Backup(nonce)) == At(orig, Manifest)))
  }

  /** The best-effort undo: without further faults the original files are back and the receipt says aborted. */
  lemma UndoEnds(w: World, req: Request, r: Receipt, orig: Files)
    requires Fresh(orig, req.nonce) && CrashState(orig, req, w.files) && Temp(req.nonce) in w.files
    ensures var o := Undo(w, req, r, Io);
      && o.Halt? && (o.why == Io || o.why == Crash) && Kept(orig, o.world.files, req.nonce)
      && (o.world.receipts == w.receipts || o.world.receipts == w.receipts[r.operation := r.(status := Aborted)])
      && (w.script == [] ==>
            o.why == Io && o.world.files == orig
              && o.world.receipts == w.receipts[r.operation := r.(status := Aborted)])
  {
    hide Rename;
    hide Remove;
    hide WriteReceipt;
    hide CrashOnly;
    hide FailOnce;
    RemoveStep(w, Temp(req.nonce));
    var cleaned := Quietly(Remove(w, Temp(req.nonce)));
    assert At(cleaned.world.files, Manifest) == At(w.files, Manifest);
    assert At(cleaned.world.files, Backup(req.nonce)) == At(w.files, Backup(req.nonce));
    if cleaned.Go? {
      var move := Backup(req.nonce) in cleaned.world.files && Manifest !in cleaned.world.files;
      var back := if move then Quietly(Rename(cleaned.world, Backup(req.nonce), Manifest)) else Go(cleaned.world);
      if move {
        RenameStep(cleaned.world, Backup(req.nonce), Manifest);
      }
      assert Kept(orig, back.world.files, req.nonce);
      if w.script == [] {
        assert back.Go? && back.world.script == [];
        SameMap(back.world.files, orig);
      }
      if back.Go? {
        WriteStep(back.world, r.(status := Aborted));
      }
    }
  }

  /** An aborted receipt means the original files exactly if the deletion of the temp and the way home were done. */
  lemma UndoRestoresIff(w: World, req: Request, r: Receipt, orig: Files)
    requires Fresh(orig, req.nonce) && CrashState(orig, req, w.files) && Temp(req.nonce) in w.files
    requires r.operation in w.receipts && w.receipts[r.operation].status == Started
    ensures var o := Undo(w, req, r, Io);
      var homeward := Backup(req.nonce) in w.files && Manifest !in w.files;
      && r.operation in o.world.receipts
      && (o.world.receipts[r.operation].status == Aborted ==>
            (o.world.files == orig <==> Peek(w).Done? && (homeward ==> Peek(Tick(w)).Done?)))
  {
    var cleaned := Quietly(Remove(w, Temp(req.nonce)));
    var o := Undo(w, req, r, Io);
    UndoFiles(w, req, r);
    if o.world.receipts[r.operation].status == Aborted {
      if Peek(w).Done? {
        var homeward := Backup(req.nonce) in w.files && Manifest !in w.files;
        if !homeward || Peek(Tick(w)).Done? {
          UndoneIsOriginal(w, req, orig, o.world.files);
        }
      }
    }
    hide Undo;
    hide CrashState;
  }

  /** The files that an undo leaves, step by step. */
  lemma UndoFiles(w: World, req: Request, r: Receipt)
    requires Temp(req.nonce) in w.files && r.operation in w.receipts && w.receipts[r.operation].status == Started
    ensures var o := Undo(w, req, r, Io);
      var cleaned := w.files - {Temp(req.nonce)};
      var homeward := Backup(req.nonce) in w.files && Manifest !in w.files;
      && r.operation in o.world.receipts
      && (o.world.receipts[r.operation].status == Aborted ==>
            if !Peek(w).Done? then Temp(req.nonce) in o.world.files
            else if !homeward then o.world.files == cleaned
            else if Peek(Tick(w)).Done? then
              o.world.files == (cleaned - {Backup(req.nonce)})[Manifest := w.files[Backup(req.nonce)]]
            else Backup(req.nonce) in o.world.files)
  {
    var cleaned := Quietly(Remove(w, Temp(req.nonce)));
    if cleaned.Go? {
      assert cleaned.world.receipts == w.receipts && cleaned.world.script == Tick(w).script;
      hide Remove;
      var move := Backup(req.nonce) in cleaned.world.files && Manifest !in cleaned.world.files;
      var back := if move then Quietly(Rename(cleaned.world, Backup(req.nonce), Manifest)) else Go(cleaned.world);
      assert back.world.receipts == w.receipts;
      hide Rename;
      if back.Go? { WriteStep(back.world, r.(status := Aborted)); }
      hide WriteReceipt;
    }
  }

  lemma UndoneIsOriginal(w: World, req: Request, orig: Files, files: Files)
    requires Fresh(orig, req.nonce) && CrashState(orig, req, w.files) && Temp(req.nonce) in w.files
    requires var cleaned := w.files - {Temp(req.nonce)};
      files == if Backup(req.nonce) in w.files && Manifest !in w.files
               then (cleaned - {Backup(req.nonce)})[Manifest := w.files[Backup(req.nonce)]] else cleaned
    ensures files == orig
  {
    SameMap(files, orig);
  }

  /** How a registration ends once its first receipt `r` is written; `done` is the map with that receipt replaced. */
  ghost predicate Ended(w: World, r: Receipt, o: Outcome, orig: Files, req: Request) {
    && r.operation in o.world.receipts
    && var status := o.world.receipts[r.operation].status;
    && o.world.receipts == w.receipts[r.operation := r.(status := status)]
    && match status {
         case Committed => o.Go? && CrashState(orig, req, o.world.files)
           && At(o.world.files, Manifest) == Some(req.manifest)
         case Aborted => o.Halt? && Kept(orig, o.world.files, req.nonce)
         case Started => o.Halt? && (CrashState(orig, req, o.world.files) || Kept(orig, o.world.files, req.nonce))
         case RolledBack => false
       }
  }

  /** A crash that no failure preceded. */
  ghost predicate CleanCrash(r: Receipt, o: Outcome, orig: Files, req: Request) {
    && o.Halt? && o.why == Crash && CrashState(orig, req, o.world.files)
    && r.operation in o.world.receipts && o.world.receipts[r.operation] == r
  }

  /** Every script: no fault means committed, one failed rename is undone, a crash leaves one of three states. */
  lemma SwapAndCommitEnds(w: World, req: Request, r: Receipt, orig: Files)
    requires Fresh(orig, req.nonce) && w.files == orig[Temp(req.nonce) := req.manifest]
    requires r.status == Started && r.operation in w.receipts && w.receipts[r.operation] == r
    ensures var o := SwapAndCommit(w, req, r);
      && Ended(w, r, o, orig, req)
      && (w.script == [] ==> o.Go?)
      && (CrashOnly(w.script) ==> o.Go? || CleanCrash(r, o, orig, req))
      && (FailOnce(w.script) && o.Halt? ==>
            && o.why == Io
            && (o.world.receipts[r.operation].status == Aborted ==> o.world.files == orig)
            && (o.world.receipts[r.operation].status == Started ==> At(o.world.files, Manifest) == Some(req.manifest)))
  {
    SwapEnds(w, req, orig);
    var swapped := Swap(w, req);
    hide Swap;
    if swapped.Go? {
      WriteStep(swapped.world, r.(status := Committed));
      FaithfulChain(w, swapped, WriteReceipt(swapped.world, r.(status := Committed)));
      hide WriteReceipt;
      assert At(swapped.world.files, Manifest) == Some(req.manifest);
      hide CrashState;
    } else if swapped.why == Io {
      UndoEnds(swapped.world, req, r, orig);
      hide Undo;
      hide Kept;
      hide CrashState;
    }
  }

  /** Nothing recorded: at most a partly written temp is left. */
  ghost predicate Unrecorded(w: World, req: Request, o: Outcome) {
    o.Halt? && o.world.receipts == w.receipts && SameExcept(w.files, o.world.files, {Temp(req.nonce)})
  }

  lemma EndedSince(w: World, noted: World, r: Receipt, o: Outcome, orig: Files, req: Request)
    requires noted.receipts == w.receipts[r.operation := r] && Ended(noted, r, o, orig, req)
    ensures Ended(w, r, o, orig, req)
  {
    var d := o.world.receipts[r.operation];
    assert w.receipts[r.operation := r][r.operation := d] == w.receipts[r.operation := d];
  }

  lemma RegisterNewEnds(h: Hash, w: World, req: Request)
    requires Fresh(w.files, req.nonce) && req.operation !in w.receipts
    ensures var o := RegisterNew(h, w, req);
      var r := NewReceipt(h, w.files, req);
      || (Unrecorded(w, req, o) && w.script != [])
      || (&& Ended(w, r, o, w.files, req) && (w.script == [] ==> o.Go?)
          && (CrashOnly(w.script) ==> o.Go? || CleanCrash(r, o, w.files, req)))
  {
    var staged := Create(w, Temp(req.nonce), req.manifest);
    assert Faithful(w, staged) && SameExcept(w.files, staged.world.files, {Temp(req.nonce)});
    assert staged.world.receipts == w.receipts;
    assert staged.Go? ==> staged.world.files == w.files[Temp(req.nonce) := req.manifest];
    hide Create;
    hide SwapAndCommit;
    if staged.Go? {
      var r := NewReceipt(h, staged.world.files, req);
      assert r == NewReceipt(h, w.files, req);
      var noted := WriteReceipt(staged.world, r);
      WriteStep(staged.world, r);
      if noted.Go? {
        FaithfulChain(w, staged, noted);
        SwapAndCommitEnds(noted.world, req, r, w.files);
        EndedSince(w, noted.world, r, SwapAndCommit(noted.world, req, r), w.files, req);
        hide CleanCrash;
        hide Ended;
      } else {
        RemoveStep(noted.world, Temp(req.nonce));
        hide Remove;
      }
      hide WriteReceipt;
    }
  }

  /** Every script: the manifest that was there is at the target or in its backup when the call is over. */
  lemma RegisterKeepsOldManifest(h: Hash, w: World, req: Request)
    requires Fresh(w.files, req.nonce) && Manifest in w.files
    ensures var o := Register(h, w, req);
      At(o.world.files, Manifest) == At(w.files, Manifest)
        || At(o.world.files, Backup(req.nonce)) == At(w.files, Manifest)
  {
    if Lock(w).Go? && req.operation !in w.receipts {
      RegisterNewEnds(h, Lock(w).world, req);
      hide RegisterNew;
    }
  }

  /**
   The steps are lock, temp, receipt, removal: the temp was written in part, or the process died before its removal, or
   the removal failed.
   */
  predicate LeavesTemp(w: World) {
    var create, receipt, removal := Peek(Tick(w)), Peek(Tick(Tick(w))), Peek(Tick(Tick(Tick(w))));
    && Peek(w).Done?
    && if create.Done? then receipt.Dies? || (receipt.Fails? && !removal.Done?) else create.residue.Some?
  }

  lemma CreateLeavesTemp(w: World, s: Slot, content: Bytes)
    requires s !in w.files
    ensures var o := Create(w, s, content);
      && o.world.receipts == w.receipts && SameExcept(w.files, o.world.files, {s})
      && (if Peek(w).Done? then o == Go(Tick(w).(files := w.files[s := content]))
          else o.Halt? && (s in o.world.files <==> Peek(w).residue.Some?))
  {
  }

  /** After a failed first receipt. */
  lemma ReceiptLeavesTemp(h: Hash, w: World, req: Request, staged: World)
    requires Peek(w).Done? && Temp(req.nonce) !in w.files && !Peek(staged).Done?
    requires staged == Tick(w).(files := w.files[Temp(req.nonce) := req.manifest])
    ensures var o := RegisterNew(h, w, req);
      && o.Halt? && o.world.receipts == w.receipts && SameExcept(w.files, o.world.files, {Temp(req.nonce)})
      && (Temp(req.nonce) in o.world.files <==> Peek(staged).Dies? || !Peek(Tick(staged)).Done?)
  {
    var r := NewReceipt(h, staged.files, req);
    var noted := WriteReceipt(staged, r);
    assert noted.Halt? && noted.world.files == staged.files && noted.world.receipts == w.receipts;
    assert noted.world.script == Tick(staged).script && (noted.why == Crash <==> Peek(staged).Dies?);
    CreateLeavesTemp(w, Temp(req.nonce), req.manifest);
    assert Create(w, Temp(req.nonce), req.manifest) == Go(staged);
    hide Create;
    hide WriteReceipt;
    hide SwapAndCommit;
  }

  lemma StagedLeavesTemp(h: Hash, w: World, req: Request)
    requires Temp(req.nonce) !in w.files
    ensures var o := RegisterNew(h, w, req);
      var create, receipt, removal := Peek(w), Peek(Tick(w)), Peek(Tick(Tick(w)));
      && (!create.Done? || !receipt.Done? ==>
            && o.Halt? && o.world.receipts == w.receipts && SameExcept(w.files, o.world.files, {Temp(req.nonce)})
            && (Temp(req.nonce) in o.world.files <==>
                  if create.Done? then receipt.Dies? || !removal.Done? else create.residue.Some?))
      && (create.Done? && receipt.Done? ==>
            var r := NewReceipt(h, w.files, req);
            var noted := Tick(Tick(w)).(files := w.files[Temp(req.nonce) := req.manifest],
                                        receipts := w.receipts[req.operation := r]);
            o == SwapAndCommit(noted, req, r))
  {
    CreateLeavesTemp(w, Temp(req.nonce), req.manifest);
    hide Create;
    hide SwapAndCommit;
    if Peek(w).Done? {
      var staged := Tick(w).(files := w.files[Temp(req.nonce) := req.manifest]);
      assert Peek(staged) == Peek(Tick(w)) && Peek(Tick(staged)) == Peek(Tick(Tick(w)));
      if Peek(staged).Done? {
        assert NewReceipt(h, staged.files, req) == NewReceipt(h, w.files, req);
      } else {
        ReceiptLeavesTemp(h, w, req, staged);
        hide RegisterNew;
      }
    }
  }

  /**
   A registration that fails before its first receipt leaves the files as they were, except exactly for the temp that
   it could not write to its end or could not delete.
   */
  lemma UnrecordedLeavesTemp(h: Hash, w: World, req: Request)
    requires !w.locked && Fresh(w.files, req.nonce) && req.operation !in w.receipts
    ensures var o := Register(h, w, req);
      o.Halt? && o.world.receipts == w.receipts ==>
        && SameExcept(w.files, o.world.files, {Temp(req.nonce)})
        && (Temp(req.nonce) in o.world.files <==> LeavesTemp(w))
  {
    var locked := Lock(w);
    if locked.Go? {
      StagedLeavesTemp(h, locked.world, req);
      RegisterNewEnds(h, locked.world, req);
      assert Tick(locked.world).script == Tick(Tick(w)).script;
      if Peek(locked.world).Done? && Peek(Tick(locked.world)).Done? {
        var r := NewReceipt(h, w.files, req);
        var noted := Tick(Tick(locked.world)).(files := w.files[Temp(req.nonce) := req.manifest],
                                               receipts := w.receipts[req.operation := r]);
        SwapAndCommitEnds(noted, req, r, w.files);
      }
      hide RegisterNew;
      hide SwapAndCommit;
    }
  }

  // ----- recovery

  /** A started receipt over files that can still be brought back to `orig`. */
  ghost predicate Recoverable(h: Hash, w: World, operation: string, orig: Files, nonce: nat) {
    && operation in w.receipts
    && var r := w.receipts[operation];
    && r.operation == operation && r.status == Started && OwnSlots(orig, r, nonce)
    && SameElsewhere(orig, w.files, nonce)
    && (Home(orig, w.files, nonce) || Saved(h, orig, w.files, r, nonce))
  }

  /** How one recovery attempt ends; refused attempts change no file. */
  ghost predicate Attempted(h: Hash, w: World, operation: string, orig: Files, nonce: nat, o: Outcome)
    requires operation in w.receipts
  {
    || (&& o.Go? && o.world.files == orig
        && o.world.receipts == w.receipts[operation := w.receipts[operation].(status := Aborted)])
    || (&& o.Halt? && o.world.receipts == w.receipts && Recoverable(h, o.world, operation, orig, nonce)
        && (o.why == Conflict ==> o.world.files == w.files))
  }

  /** The manifest step, the temp step and the backup step of a recovery whose manifest is acceptable. */
  lemma RecoverAcceptable(h: Hash, w: World, operation: string, orig: Files, nonce: nat)
    requires Recoverable(h, w, operation, orig, nonce) && Acceptable(h, w.files, w.receipts[operation])
    requires Saved(h, orig, w.files, w.receipts[operation], nonce)
    ensures var o := RecoverLocked(h, w, w.receipts[operation]);
      Attempted(h, w, operation, orig, nonce, o) && (w.script == [] ==> o.Go?)
  {
    hide Remove;
    hide Rename;
    hide CrashOnly;
    hide FailOnce;
    var r := w.receipts[operation];
    var cleared := if Manifest in w.files then Remove(w, Manifest) else Go(w);
    if Manifest in w.files { RemoveStep(w, Manifest); }
    if cleared.Go? {
      var cleaned := if r.temp in cleared.world.files then Remove(cleared.world, r.temp) else Go(cleared.world);
      if r.temp in cleared.world.files { RemoveStep(cleared.world, r.temp); }
      assert At(cleaned.world.files, Backup(nonce)) == At(w.files, Backup(nonce));
      assert At(cleaned.world.files, Manifest) == At(cleared.world.files, Manifest);
      if cleaned.Go? {
        RecoverFromBackup(h, w, cleaned.world, operation, orig, nonce);
      }
    }
  }

  lemma RecoverFromBackup(h: Hash, w: World, cleaned: World, operation: string, orig: Files, nonce: nat)
    requires Recoverable(h, w, operation, orig, nonce) && cleaned.receipts == w.receipts
    requires Manifest !in cleaned.files && Temp(nonce) !in cleaned.files && SameElsewhere(orig, cleaned.files, nonce)
    requires At(cleaned.files, Backup(nonce)) == At(orig, Manifest)
    ensures var r := w.receipts[operation];
      var back := if r.backup.Some? && r.backup.value in cleaned.files then Rename(cleaned, r.backup.value, Manifest)
        else Go(cleaned);
      var o := if back.Go? then WriteReceipt(back.world, r.(status := Aborted)) else back;
      Attempted(h, w, operation, orig, nonce, o) && (cleaned.script == [] ==> o.Go?)
  {
    hide Rename;
    hide WriteReceipt;
    hide CrashOnly;
    hide FailOnce;
    var r := w.receipts[operation];
    var move := r.backup.Some? && r.backup.value in cleaned.files;
    var back := if move then Rename(cleaned, r.backup.value, Manifest) else Go(cleaned);
    if move { RenameStep(cleaned, Backup(nonce), Manifest); }
    if back.Go? {
      SameMap(back.world.files, orig);
      WriteStep(back.world, r.(status := Aborted));
    }
  }

  /** One recovery attempt under any script; without faults it completes exactly if the manifest is acceptable. */
  lemma RecoverAttempt(h: Hash, w: World, operation: string, orig: Files, nonce: nat)
    requires Recoverable(h, w, operation, orig, nonce) && OldDiffers(h, orig, w.receipts[operation].digest)
    ensures var o := Recover(h, w, operation);
      && Attempted(h, w, operation, orig, nonce, o)
      && (w.script == [] && !w.locked ==> (o.Go? <==> Acceptable(h, w.files, w.receipts[operation])))
  {
    var locked := Lock(w);
    if locked.Go? && Acceptable(h, w.files, w.receipts[operation]) {
      assert Recoverable(h, locked.world, operation, orig, nonce);
      RecoverAcceptable(h, locked.world, operation, orig, nonce);
      hide RecoverLocked;
    }
    hide CrashOnly;
    hide FailOnce;
  }

  /** The old manifest, if there was one, still exists. */
  ghost predicate OldSurvives(orig: Files, files: Files, nonce: nat) {
    Manifest in orig ==> At(files, Manifest) == At(orig, Manifest) || At(files, Backup(nonce)) == At(orig, Manifest)
  }

  /** Recovery with the old manifest in the backup that dies between the rename and its receipt. */
  lemma RecoveryDiesAtReceipt(h: Hash, w: World, operation: string, orig: Files, nonce: nat)
      returns (script: seq<Event>)
    requires Recoverable(h, w, operation, orig, nonce) && Saved(h, orig, w.files, w.receipts[operation], nonce)
    requires Manifest in orig
    ensures var o := Recover(h, Reboot(w, script), operation);
      o.world.receipts == w.receipts && o.world.strays == w.strays && o.world.files == orig
  {
    var tail := [Done, Dies(None, false)];
    var rest := if Temp(nonce) in w.files then [Done] + tail else tail;
    var all := if Manifest in w.files then [Done] + rest else rest;
    script := [Done] + all;
    var again := Reboot(w, script);
    assert script[1..] == all;
    RecoverDies(h, Lock(again).world, operation, orig, nonce, rest);
    hide RecoverLocked;
    hide Saved;
    hide OwnSlots;
    hide SameElsewhere;
  }

  lemma RecoverDies(h: Hash, w: World, operation: string, orig: Files, nonce: nat, rest: seq<Event>)
    requires Recoverable(h, w, operation, orig, nonce) && Saved(h, orig, w.files, w.receipts[operation], nonce)
    requires Manifest in orig
    requires rest == (if Temp(nonce) in w.files then [Done] else []) + [Done, Dies(None, false)]
    requires w.script == (if Manifest in w.files then [Done] else []) + rest
    ensures var o := RecoverLocked(h, w, w.receipts[operation]);
      && o.Halt? && o.why == Crash && o.world.receipts == w.receipts && o.world.strays == w.strays
      && o.world.files == orig
  {
    var r := w.receipts[operation];
    assert r.temp == Temp(nonce) && r.backup == Some(Backup(nonce)) && Backup(nonce) in w.files;
    assert Manifest in w.files ==> h(w.files[Manifest]) == r.digest;
    hide Remove;
    hide Rename;
    hide WriteReceipt;
    hide Recoverable;
    hide Saved;
    hide OwnSlots;
    hide SameElsewhere;
    hide Fresh;
    var tail := [Done, Dies(None, false)];
    var cleared := w.(files := w.files - {Manifest}, script := rest);
    RemoveOrSkip(w, Manifest, rest);
    var cleaned := cleared.(files := cleared.files - {Temp(nonce)}, script := tail);
    RemoveOrSkip(cleared, Temp(nonce), tail);
    HomewardDies(cleaned, nonce, r.(status := Aborted));
    assert RecoverLocked(h, w, r) == WriteReceipt(Rename(cleaned, Backup(nonce), Manifest).world,
      r.(status := Aborted));
    hide RecoverLocked;
    RecoverableIsHome(h, w, operation, orig, nonce, Rename(cleaned, Backup(nonce), Manifest).world.files);
  }

  lemma RecoverableIsHome(h: Hash, w: World, operation: string, orig: Files, nonce: nat, after: Files)
    requires Recoverable(h, w, operation, orig, nonce) && Saved(h, orig, w.files, w.receipts[operation], nonce)
    requires Backup(nonce) in w.files
    requires after == (w.files - {Manifest} - {Temp(nonce)} - {Backup(nonce)})[Manifest := w.files[Backup(nonce)]]
    ensures after == orig
  {
    SameMap(after, orig);
  }

  lemma RemoveOrSkip(w: World, s: Slot, rest: seq<Event>)
    requires w.script == (if s in w.files then [Done] else []) + rest
    ensures (if s in w.files then Remove(w, s) else Go(w)) == Go(w.(files := w.files - {s}, script := rest))
  {
    if s in w.files {
      assert w.script[1..] == rest;
    } else {
      assert w.files - {s} == w.files;
    }
  }

  lemma HomewardDies(w: World, nonce: nat, r: Receipt)
    requires Backup(nonce) in w.files && w.script == [Done, Dies(None, false)]
    ensures var back := Rename(w, Backup(nonce), Manifest);
      && back.Go? && back.world.files == (w.files - {Backup(nonce)})[Manifest := w.files[Backup(nonce)]]
      && var o := WriteReceipt(back.world, r);
      && o.Halt? && o.why == Crash && o.world.files == back.world.files
      && o.world.receipts == w.receipts && o.world.strays == w.strays
  {
    assert Rename(w, Backup(nonce), Manifest).world.script == [Dies(None, false)];
  }

  lemma RecoveryDeletesOld(h: Hash, w: World, operation: string, orig: Files, nonce: nat)
    requires Recoverable(h, w, operation, orig, nonce) && Home(orig, w.files, nonce) && Manifest in orig
    requires h(orig[Manifest]) == w.receipts[operation].digest && w.script == [] && !w.locked
    ensures !OldSurvives(orig, Recover(h, w, operation).world.files, nonce)
  {
    var locked := Lock(w).world;
    var cleared := Remove(locked, Manifest);
    assert cleared.Go? && Manifest !in cleared.world.files && Backup(nonce) !in cleared.world.files;
  }

  lemma CrashStateRecovers(h: Hash, w: World, req: Request, orig: Files)
    requires w.script == [] && !w.locked && CrashState(orig, req, w.files) && Fresh(orig, req.nonce)
    requires req.operation in w.receipts && w.receipts[req.operation] == NewReceipt(h, orig, req)
    ensures var healed := Recover(h, w, req.operation);
      if Manifest !in orig || Backup(req.nonce) in w.files then healed.Go? && healed.world.files == orig
      else if h(orig[Manifest]) != h(req.manifest) then
        healed.Halt? && healed.why == Conflict && healed.world.files == w.files
          && At(w.files, Manifest) == At(orig, Manifest)
      else
        healed.Go? && Manifest !in healed.world.files && Backup(req.nonce) !in healed.world.files
  {
    if Manifest !in orig || Backup(req.nonce) in w.files {
      var locked := Lock(w).world;
      RecoverAcceptable(h, locked, req.operation, orig, req.nonce);
      hide RecoverLocked;
    }
  }

  lemma RecoverReceipts(h: Hash, w: World, operation: string)
    requires operation in w.receipts && w.receipts[operation].operation == operation
    ensures var o := Recover(h, w, operation);
      o.Go? && w.receipts[operation].status == Started ==>
        o.world.receipts == w.receipts[operation := w.receipts[operation].(status := Aborted)]
  {
    if Lock(w).Go? { RecoverLockedReceipts(h, Lock(w).world, w.receipts[operation]); }
    hide RecoverLocked;
  }

  lemma RecoverLockedReceipts(h: Hash, w: World, r: Receipt)
    ensures var o := RecoverLocked(h, w, r); o.Go? ==>
      o.world.receipts == w.receipts[r.operation := r.(status := Aborted)]
  {
    hide Remove;
    hide Rename;
    hide WriteReceipt;
    hide Faithful;
    var cleared := if Manifest in w.files then Remove(w, Manifest) else Go(w);
    if Manifest in w.files { RemoveStep(w, Manifest); }
    if cleared.Go? {
      var cleaned := if r.temp in cleared.world.files then Remove(cleared.world, r.temp) else Go(cleared.world);
      if r.temp in cleared.world.files { RemoveStep(cleared.world, r.temp); }
      if cleaned.Go? {
        var move := r.backup.Some? && r.backup.value in cleaned.world.files && Manifest !in cleaned.world.files;
        var back := if move then Rename(cleaned.world, r.backup.value, Manifest) else Go(cleaned.world);
        if move { RenameStep(cleaned.world, r.backup.value, Manifest); }
        if back.Go? { WriteStep(back.world, r.(status := Aborted)); }
      }
    }
  }
}
