/** Registering under an operation id that already has a receipt, in any run. */
module RegistrationReplay {
  import opened RegistrationModel
  import opened RegistrationProofs
  import opened RegistrationReconcile

  /** The receipt is the committed one of this very request. */
  ghost predicate Replays(h: Hash, r: Receipt, req: Request) {
    && r.operation == req.operation && r.status == Committed
    && r.digest == h(req.manifest) && r.version == req.version
  }

  /**
   Under any script: a recorded id never changes a file or a receipt, and the call succeeds exactly if the lock can be
   taken and the receipt is the committed one of the same manifest and version.
   */
  lemma RegisterAgain(h: Hash, w: World, req: Request)
    requires req.operation in w.receipts
    ensures var r, o := w.receipts[req.operation], Register(h, w, req);
      && o.world.files == w.files && o.world.receipts == w.receipts && o.world.strays == w.strays
      && (o.Go? <==> !w.locked && Peek(w).Done? && Replays(h, r, req))
      && (!w.locked && Peek(w).Done? && o.Halt? ==>
            o.why == if r.operation != req.operation then Corrupt else Conflict)
  {
  }

  // ----- what is bound to an id

  /** Only the status of a receipt may change. */
  ghost predicate Bound(w: World, w': World) {
    forall s :: s in w.receipts ==>
      s in w'.receipts && w'.receipts[s] == w.receipts[s].(status := w'.receipts[s].status)
  }

  ghost predicate OneStatus(w: World, o: Outcome, r: Receipt) {
    && o.world.locked == w.locked
    && (|| o.world.receipts == w.receipts
        || exists status :: o.world.receipts == w.receipts[r.operation := r.(status := status)])
  }

  lemma RollbackStatus(h: Hash, w: World, r: Receipt)
    ensures OneStatus(w, RollbackLocked(h, w, r), r)
  {
    var removed := Remove(w, Manifest);
    assert removed.world.receipts == w.receipts && removed.world.locked == w.locked;
    hide Remove;
    var move := r.backup.Some? && r.backup.value in removed.world.files;
    var back := if move then Rename(removed.world, r.backup.value, Manifest) else Go(removed.world);
    assert back.world.receipts == w.receipts && back.world.locked == w.locked;
    hide Rename;
    var written := WriteReceipt(back.world, r.(status := RolledBack));
    WriteStep(back.world, r.(status := RolledBack));
    assert written.world.locked == back.world.locked;
    hide WriteReceipt;
  }

  ghost predicate SameBooks(w: World, o: Outcome) {
    o.world.receipts == w.receipts && o.world.locked == w.locked
  }

  lemma FileStepsKeepBooks(w: World, source: Slot, target: Slot)
    ensures SameBooks(w, Remove(w, source)) && SameBooks(w, Rename(w, source, target)) && SameBooks(w, Go(w))
  {
  }

  lemma WriteOneStatus(w: World, v: World, r: Receipt, status: Status)
    requires v.receipts == w.receipts && v.locked == w.locked
    ensures OneStatus(w, WriteReceipt(v, r.(status := status)), r)
  {
  }

  lemma RecoverStatus(h: Hash, w: World, r: Receipt)
    ensures OneStatus(w, RecoverLocked(h, w, r), r)
  {
    hide Remove;
    hide Rename;
    hide WriteReceipt;
    FileStepsKeepBooks(w, Manifest, Manifest);
    var cleared := if Manifest in w.files then Remove(w, Manifest) else Go(w);
    FileStepsKeepBooks(cleared.world, r.temp, Manifest);
    var cleaned := if r.temp in cleared.world.files then Remove(cleared.world, r.temp) else Go(cleared.world);
    var move := r.backup.Some? && r.backup.value in cleaned.world.files && Manifest !in cleaned.world.files;
    var back := if move then Rename(cleaned.world, r.backup.value, Manifest) else Go(cleaned.world);
    FileStepsKeepBooks(cleaned.world, if move then r.backup.value else Manifest, Manifest);
    WriteOneStatus(w, back.world, r, Aborted);
  }

  lemma {:induction false} ScanBinds(h: Hash, w: World, listing: seq<string>)
    ensures Bound(w, ReconcileFrom(h, w, listing).world)
    decreases |listing|
  {
    hide RecoverLocked;
    if listing != [] {
      var o := Recover(h, w, listing[0]);
      if listing[0] in w.receipts { RecoverStatus(h, Lock(w).world, w.receipts[listing[0]]); }
      assert Bound(w, o.world);
      hide Recover;
      if o.Go? { ScanBinds(h, o.world, listing[1..]); }
    }
  }

  lemma NewKeepsAll(h: Hash, w: World, req: Request)
    requires req.operation !in w.receipts
    ensures Bound(w, Register(h, w, req).world)
  {
    var locked := Lock(w).world;
    forall s | s in w.receipts ensures Keeps(locked, RegisterNew(h, locked, req), s) {
      RegisterKeeps(h, locked, req, s);
    }
    hide RegisterNew;
  }

  lemma RegisterBinds(h: Hash, w: World, req: Request)
    ensures Bound(w, Register(h, w, req).world)
  {
    if req.operation in w.receipts { RegisterAgain(h, w, req); } else { NewKeepsAll(h, w, req); }
    hide Register;
  }

  lemma RollbackBinds(h: Hash, w: World, operation: string)
    ensures Bound(w, Rollback(h, w, operation).world)
  {
    if operation in w.receipts { RollbackStatus(h, Lock(w).world, w.receipts[operation]); }
    hide RollbackLocked;
  }

  lemma ReconcileBinds(h: Hash, w: World, listing: seq<string>)
    ensures Bound(w, Reconcile(h, w, listing).world)
  {
    ScanBinds(h, w, listing);
    hide ReconcileFrom;
  }

  lemma CallBinds(h: Hash, w: World, call: Call)
    ensures Bound(w, Perform(h, w, call))
  {
    hide Register;
    hide Rollback;
    hide Reconcile;
    match call
    case RegisterCall(req) => RegisterBinds(h, w, req);
    case RollbackCall(operation) => RollbackBinds(h, w, operation);
    case ReconcileCall(listing) => ReconcileBinds(h, w, listing);
    case RebootCall(script) =>
    case EditCall(files) =>
  }

  /** In every run an operation id keeps its digest, its version and its paths. */
  lemma {:induction false} RunBinds(h: Hash, w: World, calls: seq<Call>)
    ensures Bound(w, Run(h, w, calls))
    decreases |calls|
  {
    if calls != [] {
      CallBinds(h, w, calls[0]);
      hide Perform;
      RunBinds(h, Perform(h, w, calls[0]), calls[1..]);
    }
  }

  /**
   After a registration, whatever happens in between: its id never changes a file or a receipt again, no other manifest
   or version can take it, and without faults the same request succeeds exactly while the receipt is committed.
   */
  lemma ReplayIsHarmless(h: Hash, w: World, calls: seq<Call>, req: Request)
    requires req.operation in w.receipts && w.receipts[req.operation].operation == req.operation
    ensures var r, now := w.receipts[req.operation], Run(h, w, calls);
      var o := Register(h, now, req);
      && req.operation in now.receipts && o.world.files == now.files && o.world.receipts == now.receipts
      && (r.digest != h(req.manifest) || r.version != req.version ==> o.Halt?)
      && (now.script == [] && !now.locked ==>
            var same := r.digest == h(req.manifest) && r.version == req.version;
            if same && now.receipts[req.operation].status == Committed then o.Go? else o.Halt? && o.why == Conflict)
  {
    RunBinds(h, w, calls);
    hide Run;
    RegisterAgain(h, Run(h, w, calls), req);
    hide Register;
  }

  // ----- the lock, and what is reported

  /** After any call the lock is held if it was before, if its owner file failed, or if the process died holding it. */
  ghost predicate LockKept(w: World, o: Outcome) {
    o.world.locked <==> w.locked || if Peek(w).Done? then o.Halt? && o.why == Crash else Peek(w).stray
  }

  lemma RegisterKeepsLock(h: Hash, w: World, req: Request)
    ensures LockKept(w, Register(h, w, req))
  {
    var locked := Lock(w).world;
    if req.operation !in w.receipts { RegisterKeeps(h, locked, req, req.operation + "'"); }
    hide RegisterNew;
  }

  lemma RollbackKeepsLock(h: Hash, w: World, operation: string)
    requires operation in w.receipts && w.receipts[operation].status == Committed
    ensures LockKept(w, Rollback(h, w, operation))
  {
    RollbackStatus(h, Lock(w).world, w.receipts[operation]);
    hide RollbackLocked;
  }

  lemma RecoverKeepsLock(h: Hash, w: World, operation: string)
    requires operation in w.receipts && w.receipts[operation].operation == operation
    requires w.receipts[operation].status == Started
    ensures LockKept(w, Recover(h, w, operation))
  {
    RecoverStatus(h, Lock(w).world, w.receipts[operation]);
    hide RecoverLocked;
  }

  /** What a rollback reports: each refusal has its code and changes nothing; all else is an I/O error or a death. */
  lemma RollbackReports(h: Hash, w: World, operation: string)
    ensures var o := Rollback(h, w, operation);
      if operation !in w.receipts then o == Halt(w, NotFound)
      else
        var r := w.receipts[operation];
        if r.status != Committed || w.locked then o == Halt(w, Conflict)
        else if !Peek(w).Done? then o.Halt? && o.why == if Peek(w).Fails? then Io else Crash
        else if r.operation != operation then o == Halt(Tick(w), Corrupt)
        else if Manifest !in w.files then o == Halt(Tick(w), Io)
        else if h(w.files[Manifest]) != r.digest then o == Halt(Tick(w), Conflict)
        else o.Halt? ==> o.why == Io || o.why == Crash
  {
    if operation in w.receipts && Lock(w).Go? {
      RollbackFails(h, Lock(w).world, w.receipts[operation]);
      hide RollbackLocked;
    }
  }

  lemma RollbackFails(h: Hash, w: World, r: Receipt)
    ensures var o := RollbackLocked(h, w, r);
      if Manifest !in w.files then o == Halt(w, Io)
      else if h(w.files[Manifest]) != r.digest then o == Halt(w, Conflict)
      else o.Halt? ==> o.why == Io || o.why == Crash
  {
    var removed := Remove(w, Manifest);
    assert removed.Halt? ==> removed.why == Io || removed.why == Crash;
    hide Remove;
    hide WriteReceipt;
    var move := r.backup.Some? && r.backup.value in removed.world.files;
    var back := if move then Rename(removed.world, r.backup.value, Manifest) else Go(removed.world);
    assert back.Halt? ==> back.why == Io || back.why == Crash;
    hide Rename;
    WriteStep(back.world, r.(status := RolledBack));
    hide Faithful;
  }
}
