/** Recovery of registrations through its entry point, which refuses while an unfinished receipt file is left over. */
module RegistrationReconcile {
  import opened Wrappers
  import opened RegistrationModel
  import opened RegistrationProofs

  // ----- one started receipt among settled ones

  ghost predicate Settled(w: World, s: string) {
    s in w.receipts && w.receipts[s].operation == s && w.receipts[s].status != Started
  }

  ghost predicate OthersSettled(w: World, operation: string, listing: seq<string>) {
    forall s :: s in listing && s != operation ==> Settled(w, s)
  }

  /** No listed receipt but that of `operation` is started. */
  ghost predicate OnlyStarted(w: World, operation: string, listing: seq<string>) {
    && operation in listing && |listing| <= MAX_RECEIPTS && OthersSettled(w, operation, listing)
    && operation in w.receipts && w.receipts[operation].operation == operation
  }

  lemma {:induction false} AllSettled(h: Hash, w: World, listing: seq<string>)
    requires forall s :: s in listing ==> Settled(w, s)
    ensures ReconcileFrom(h, w, listing) == Go(w)
    decreases |listing|
  {
    if listing != [] {
      assert listing[0] in listing;
      assert forall s :: s in listing[1..] ==> s in listing;
      AllSettled(h, w, listing[1..]);
    }
  }

  lemma {:induction false} ScanIsRecover(h: Hash, w: World, operation: string, listing: seq<string>)
    requires OnlyStarted(w, operation, listing)
    ensures ReconcileFrom(h, w, listing) == Recover(h, w, operation)
    decreases |listing|
  {
    var rest := listing[1..];
    assert forall s :: s in rest ==> s in listing;
    var o := Recover(h, w, operation);
    if listing[0] == operation {
      RecoverReceipts(h, w, operation);
      if o.Go? {
        assert w.receipts[operation].status != Started ==> o == Go(w);
        hide Recover;
        AllSettled(h, o.world, rest);
      }
    } else {
      assert operation in rest && listing[0] in listing;
      assert Settled(w, listing[0]);
      assert Recover(h, w, listing[0]) == Go(w);
      ScanIsRecover(h, w, operation, rest);
    }
  }

  /** Reconcile refuses over an unfinished receipt file, and otherwise recovers the one started receipt. */
  lemma ReconcileIsRecover(h: Hash, w: World, operation: string, listing: seq<string>)
    requires OnlyStarted(w, operation, listing)
    ensures Reconcile(h, w, listing) == if w.strays > 0 then Halt(w, Corrupt) else Recover(h, w, operation)
  {
    ScanIsRecover(h, w, operation, listing);
    hide Recover;
  }

  // ----- any number of attempts

  /**
   One reconcile under any script: restored, or still recoverable with the receipts untouched; without faults it
   completes exactly if no unfinished receipt file is there and the manifest is acceptable.
   */
  lemma ReconcileAttempt(h: Hash, w: World, operation: string, orig: Files, nonce: nat, listing: seq<string>)
    requires Recoverable(h, w, operation, orig, nonce) && OldDiffers(h, orig, w.receipts[operation].digest)
    requires OnlyStarted(w, operation, listing)
    ensures var o := Reconcile(h, w, listing);
      && Attempted(h, w, operation, orig, nonce, o)
      && (w.script == [] && !w.locked ==> (o.Go? <==> w.strays == 0 && Acceptable(h, w.files, w.receipts[operation])))
  {
    ReconcileIsRecover(h, w, operation, listing);
    RecoverAttempt(h, w, operation, orig, nonce);
    hide Recover;
    hide Reconcile;
  }

  /** Reconcile again and again: attempt k meets the events of scripts[k]. */
  function Reruns(h: Hash, w: World, listing: seq<string>, scripts: seq<seq<Event>>): World
    decreases |scripts|
  {
    if scripts == [] then w
    else Reruns(h, Reconcile(h, Reboot(w, scripts[0]), listing).world, listing, scripts[1..])
  }

  /** With every listed receipt settled there is nothing left to do. */
  lemma {:induction false} RerunsOfSettled(h: Hash, w: World, listing: seq<string>, scripts: seq<seq<Event>>)
    requires |listing| <= MAX_RECEIPTS && forall s :: s in listing ==> Settled(w, s)
    ensures var last := Reruns(h, w, listing, scripts); last.files == w.files && last.receipts == w.receipts
    decreases |scripts|
  {
    if scripts != [] {
      var again := Reboot(w, scripts[0]);
      AllSettled(h, again, listing);
      hide ReconcileFrom;
      RerunsOfSettled(h, Reconcile(h, again, listing).world, listing, scripts[1..]);
    }
  }

  /**
   However often reconcile is interrupted, with an old manifest that hashes differently: all is restored, or the
   receipts are untouched and the old manifest is at the target or in the backup; then the next fault-free reconcile
   completes exactly if no unfinished receipt file is there and the manifest is acceptable.
   */
  lemma {:induction false} InterruptedReconcile(h: Hash, w: World, operation: string, orig: Files, nonce: nat,
      listing: seq<string>, scripts: seq<seq<Event>>)
    requires Recoverable(h, w, operation, orig, nonce) && OldDiffers(h, orig, w.receipts[operation].digest)
    requires OnlyStarted(w, operation, listing)
    ensures var last := Reruns(h, w, listing, scripts);
      && operation in last.receipts && OldSurvives(orig, last.files, nonce)
      && if last.receipts[operation].status == Aborted then last.files == orig
         else
           && last.receipts == w.receipts && Recoverable(h, last, operation, orig, nonce)
           && (Reconcile(h, Reboot(last, []), listing).Go? <==>
                 last.strays == 0 && Acceptable(h, last.files, last.receipts[operation]))
    decreases |scripts|
  {
    hide Reconcile;
    if scripts == [] {
      ReconcileAttempt(h, Reboot(w, []), operation, orig, nonce, listing);
    } else {
      var again := Reboot(w, scripts[0]);
      ReconcileAttempt(h, again, operation, orig, nonce, listing);
      var o := Reconcile(h, again, listing);
      if o.Go? {
        RerunsOfSettled(h, o.world, listing, scripts[1..]);
      } else {
        InterruptedReconcile(h, o.world, operation, orig, nonce, listing, scripts[1..]);
      }
    }
    hide SameElsewhere;
  }

  lemma {:induction false} RerunsBlocked(h: Hash, w: World, listing: seq<string>, scripts: seq<seq<Event>>)
    requires w.strays > 0
    ensures Reruns(h, w, listing, scripts).files == w.files
    decreases |scripts|
  {
    if scripts != [] { RerunsBlocked(h, Reboot(w, scripts[0]), listing, scripts[1..]); }
  }

  lemma RerunsTwice(h: Hash, w: World, listing: seq<string>, a: seq<Event>, b: seq<Event>)
    ensures var first := Reconcile(h, Reboot(w, a), listing).world;
      && Reruns(h, w, listing, [a]) == first
      && Reruns(h, w, listing, [a, b]) == Reconcile(h, Reboot(first, b), listing).world
  {
    hide Reconcile;
    var first := Reconcile(h, Reboot(w, a), listing).world;
    var last := Reconcile(h, Reboot(first, b), listing).world;
    assert [a, b][1..] == [b] && [b][1..] == [] && [a][1..] == [];
    assert Reruns(h, first, listing, []) == first && Reruns(h, last, listing, []) == last;
    assert Reruns(h, first, listing, [b]) == last;
  }

  /** Equal digests and nothing left over: one fault-free run deletes an old manifest that is home. */
  lemma HomeIsDeleted(h: Hash, w: World, operation: string, orig: Files, nonce: nat, listing: seq<string>)
    requires Recoverable(h, w, operation, orig, nonce) && !OldDiffers(h, orig, w.receipts[operation].digest)
    requires OnlyStarted(w, operation, listing) && w.strays == 0 && Home(orig, w.files, nonce)
    ensures !OldSurvives(orig, Reconcile(h, Reboot(w, []), listing).world.files, nonce)
  {
    ReconcileIsRecover(h, Reboot(w, []), operation, listing);
    RecoveryDeletesOld(h, Reboot(w, []), operation, orig, nonce);
    hide Recover;
    hide Reconcile;
  }

  /**
   The old manifest survives every sequence of interrupted reconciles if and only if it does not hash like the new
   one, or an unfinished receipt file stops them all.
   */
  lemma OldManifestSurvivesIff(h: Hash, w: World, operation: string, orig: Files, nonce: nat, listing: seq<string>)
    requires Recoverable(h, w, operation, orig, nonce) && OnlyStarted(w, operation, listing)
    ensures (forall scripts :: OldSurvives(orig, Reruns(h, w, listing, scripts).files, nonce))
      <==> OldDiffers(h, orig, w.receipts[operation].digest) || w.strays > 0
  {
    hide Reruns;
    hide Reconcile;
    if OldDiffers(h, orig, w.receipts[operation].digest) {
      forall scripts ensures OldSurvives(orig, Reruns(h, w, listing, scripts).files, nonce) {
        InterruptedReconcile(h, w, operation, orig, nonce, listing, scripts);
      }
    } else if w.strays > 0 {
      forall scripts ensures OldSurvives(orig, Reruns(h, w, listing, scripts).files, nonce) {
        RerunsBlocked(h, w, listing, scripts);
      }
    } else if Home(orig, w.files, nonce) {
      HomeIsDeleted(h, w, operation, orig, nonce, listing);
      RerunsTwice(h, w, listing, [], []);
    } else {
      var script := RecoveryDiesAtReceipt(h, w, operation, orig, nonce);
      ReconcileIsRecover(h, Reboot(w, script), operation, listing);
      hide Recover;
      HomeIsDeleted(h, Reconcile(h, Reboot(w, script), listing).world, operation, orig, nonce, listing);
      RerunsTwice(h, w, listing, script, []);
    }
    hide OldSurvives;
    hide OldDiffers;
  }

  // ----- crash, then reconcile

  /**
   Crash anywhere after the first receipt, then reconcile.  With an unfinished receipt file left over it refuses and
   changes nothing, and so does a rollback.  Otherwise the old manifest (or its absence) is back after either rename;
   before the first rename over an existing manifest it refuses and changes nothing if the digests differ, and deletes
   the old manifest if they are equal.
   */
  lemma CrashThenReconcile(h: Hash, w: World, req: Request, listing: seq<string>)
    requires !w.locked && Fresh(w.files, req.nonce) && req.operation !in w.receipts && CrashOnly(w.script)
    requires req.operation in listing && |listing| <= MAX_RECEIPTS && OthersSettled(w, req.operation, listing)
    ensures var o := Register(h, w, req);
      || Unrecorded(w, req, o)
      || (o.Go? && At(o.world.files, Manifest) == Some(req.manifest))
      || (var again := Reboot(o.world, []);
          var healed := Reconcile(h, again, listing);
          if o.world.strays > 0 then
            && healed == Halt(again, Corrupt)
            && Rollback(h, again, req.operation) == Halt(again, Conflict)
          else if Manifest !in w.files || Backup(req.nonce) in o.world.files then
            healed.Go? && healed.world.files == w.files
          else if h(w.files[Manifest]) != h(req.manifest) then
            healed.Halt? && healed.why == Conflict && healed.world.files == o.world.files
              && At(healed.world.files, Manifest) == At(w.files, Manifest)
          else
            healed.Go? && Manifest !in healed.world.files && Backup(req.nonce) !in healed.world.files)
  {
    var locked := Lock(w);
    hide Reconcile;
    hide Rollback;
    if locked.Go? {
      RegisterNewEnds(h, locked.world, req);
      var o := RegisterNew(h, locked.world, req);
      hide RegisterNew;
      if o.Halt? && !Unrecorded(locked.world, req, o) {
        CrashStateReconciles(h, Reboot(o.world, []), req, w.files, listing);
      }
      hide CrashState;
      hide SameElsewhere;
    }
  }

  lemma CrashStateReconciles(h: Hash, w: World, req: Request, orig: Files, listing: seq<string>)
    requires w.script == [] && !w.locked && CrashState(orig, req, w.files) && Fresh(orig, req.nonce)
    requires req.operation in w.receipts && w.receipts[req.operation] == NewReceipt(h, orig, req)
    requires req.operation in listing && |listing| <= MAX_RECEIPTS && OthersSettled(w, req.operation, listing)
    ensures var healed := Reconcile(h, w, listing);
      if w.strays > 0 then healed == Halt(w, Corrupt) && Rollback(h, w, req.operation) == Halt(w, Conflict)
      else if Manifest !in orig || Backup(req.nonce) in w.files then healed.Go? && healed.world.files == orig
      else if h(orig[Manifest]) != h(req.manifest) then
        healed.Halt? && healed.why == Conflict && healed.world.files == w.files
          && At(w.files, Manifest) == At(orig, Manifest)
      else
        healed.Go? && Manifest !in healed.world.files && Backup(req.nonce) !in healed.world.files
  {
    ReconcileIsRecover(h, w, req.operation, listing);
    CrashStateRecovers(h, w, req, orig);
    hide Recover;
    hide Reconcile;
  }

  /** The files of a registration over an existing manifest that has done both renames. */
  ghost function Swapped(orig: Files, req: Request): Files
    requires Manifest in orig
  {
    orig[Backup(req.nonce) := orig[Manifest]][Manifest := req.manifest]
  }

  /** A registration over an existing manifest that dies in its last receipt, after both renames. */
  function DiesInCommit(stray: bool): seq<Event> {
    [Done, Done, Done, Done, Done, Dies(None, stray)]
  }

  lemma CommitDies(h: Hash, w: World, req: Request, stray: bool)
    requires !w.locked && Fresh(w.files, req.nonce) && req.operation !in w.receipts && Manifest in w.files
    ensures var o := Register(h, w.(script := DiesInCommit(stray)), req);
      && o.Halt? && o.why == Crash && o.world.strays == w.strays + (if stray then 1 else 0)
      && o.world.receipts == w.receipts[req.operation := NewReceipt(h, w.files, req)]
      && o.world.files == Swapped(w.files, req)
  {
    var events := DiesInCommit(stray);
    var locked := Lock(w.(script := events)).world;
    assert locked.script == events[1..];
    var staged := Create(locked, Temp(req.nonce), req.manifest).world;
    assert staged.script == events[2..];
    var r := NewReceipt(h, staged.files, req);
    var noted := WriteReceipt(staged, r).world;
    assert noted.script == events[3..];
    var saved := Rename(noted, Manifest, Backup(req.nonce)).world;
    assert saved.script == events[4..];
    var moved := Rename(saved, Temp(req.nonce), Manifest).world;
    assert moved.script == events[5..];
    assert moved.files == Swapped(w.files, req);
    assert Swap(noted, req) == Go(moved);
    hide Swap;
    assert RegisterNew(h, locked, req) == WriteReceipt(moved, r.(status := Committed));
    hide RegisterNew;
  }

  // ----- an unfinished receipt file blocks recovery for ever

  datatype Call =
    | RegisterCall(req: Request)
    | RollbackCall(operation: string)
    | ReconcileCall(listing: seq<string>)
    | RebootCall(script: seq<Event>)
    | EditCall(files: Files)

  function Perform(h: Hash, w: World, call: Call): World {
    match call
    case RegisterCall(req) => Register(h, w, req).world
    case RollbackCall(operation) => Rollback(h, w, operation).world
    case ReconcileCall(listing) => Reconcile(h, w, listing).world
    case RebootCall(script) => Reboot(w, script)
    case EditCall(files) => w.(files := files)
  }

  function Run(h: Hash, w: World, calls: seq<Call>): World
    decreases |calls|
  {
    if calls == [] then w else Run(h, Perform(h, w, calls[0]), calls[1..])
  }

  ghost predicate Stuck(w: World, operation: string) {
    && w.strays > 0 && operation in w.receipts
    && w.receipts[operation].operation == operation && w.receipts[operation].status == Started
  }

  /** The receipt of `kept` and the lock are as they were, and no unfinished receipt file is gone. */
  ghost predicate Keeps(w: World, o: Outcome, kept: string) {
    && o.world.strays >= w.strays && o.world.locked == w.locked
    && (kept in w.receipts ==> kept in o.world.receipts && o.world.receipts[kept] == w.receipts[kept])
  }

  lemma StepKeeps(w: World, source: Slot, target: Slot, r: Receipt, kept: string)
    requires r.operation != kept
    ensures Keeps(w, Go(w), kept)
    ensures Keeps(w, Remove(w, source), kept) && Keeps(w, Quietly(Remove(w, source)), kept)
    ensures Keeps(w, Rename(w, source, target), kept) && Keeps(w, Quietly(Rename(w, source, target)), kept)
    ensures Keeps(w, WriteReceipt(w, r), kept) && Keeps(w, Quietly(WriteReceipt(w, r)), kept)
  {
  }

  lemma KeepsChain(w: World, o: Outcome, q: Outcome, kept: string)
    requires Keeps(w, o, kept) && Keeps(o.world, q, kept)
    ensures Keeps(w, q, kept)
    ensures forall why :: Keeps(w, Halt(q.world, why), kept)
  {
  }

  lemma UndoKeeps(w: World, req: Request, r: Receipt, cause: Error, kept: string)
    requires r.operation != kept
    ensures Keeps(w, Undo(w, req, r, cause), kept)
  {
    var temp, backup := Temp(req.nonce), Backup(req.nonce);
    StepKeeps(w, temp, temp, r, kept);
    var cleaned := Quietly(Remove(w, temp));
    StepKeeps(cleaned.world, backup, Manifest, r, kept);
    var back := if backup in cleaned.world.files && Manifest !in cleaned.world.files
      then Quietly(Rename(cleaned.world, backup, Manifest)) else Go(cleaned.world);
    var noted := Quietly(WriteReceipt(back.world, r.(status := Aborted)));
    StepKeeps(back.world, backup, Manifest, r.(status := Aborted), kept);
    hide Remove;
    hide Rename;
    hide WriteReceipt;
    hide Keeps;
    KeepsChain(w, cleaned, back, kept);
    KeepsChain(w, back, noted, kept);
  }

  lemma SwapKeeps(w: World, req: Request, r: Receipt, kept: string)
    requires r.operation != kept
    ensures Keeps(w, Swap(w, req), kept)
  {
    StepKeeps(w, Manifest, Backup(req.nonce), r, kept);
    StepKeeps(w, Temp(req.nonce), Manifest, r, kept);
    StepKeeps(Rename(w, Manifest, Backup(req.nonce)).world, Temp(req.nonce), Manifest, r, kept);
    hide Rename;
  }

  lemma SwapAndCommitKeeps(w: World, req: Request, r: Receipt, kept: string)
    requires r.operation != kept
    ensures Keeps(w, SwapAndCommit(w, req, r), kept)
  {
    SwapKeeps(w, req, r, kept);
    var swapped := Swap(w, req);
    hide Swap;
    StepKeeps(swapped.world, Manifest, Manifest, r.(status := Committed), kept);
    hide WriteReceipt;
    if swapped.Halt? { UndoKeeps(swapped.world, req, r, swapped.why, kept); }
    hide Undo;
  }

  lemma RegisterKeeps(h: Hash, w: World, req: Request, kept: string)
    requires req.operation != kept
    ensures Keeps(w, RegisterNew(h, w, req), kept)
  {
    var staged := Create(w, Temp(req.nonce), req.manifest);
    assert Keeps(w, staged, kept);
    hide Create;
    var r := NewReceipt(h, staged.world.files, req);
    StepKeeps(staged.world, Manifest, Manifest, r, kept);
    var noted := WriteReceipt(staged.world, r);
    StepKeeps(noted.world, Temp(req.nonce), Manifest, r, kept);
    var cleaned := Quietly(Remove(noted.world, Temp(req.nonce)));
    SwapAndCommitKeeps(noted.world, req, r, kept);
    var swapped := SwapAndCommit(noted.world, req, r);
    hide WriteReceipt;
    hide Remove;
    hide Rename;
    hide SwapAndCommit;
    hide Keeps;
    KeepsChain(w, staged, noted, kept);
    KeepsChain(w, noted, cleaned, kept);
    KeepsChain(w, noted, swapped, kept);
    assert noted.Halt? ==> Keeps(w, Halt(noted.world, noted.why), kept);
  }

  lemma RollbackKeeps(h: Hash, w: World, r: Receipt, kept: string)
    requires r.operation != kept
    ensures Keeps(w, RollbackLocked(h, w, r), kept)
  {
    StepKeeps(w, Manifest, Manifest, r, kept);
    var removed := Remove(w, Manifest);
    var move := r.backup.Some? && r.backup.value in removed.world.files;
    if move { StepKeeps(removed.world, r.backup.value, Manifest, r, kept); }
    StepKeeps(removed.world, Manifest, Manifest, r, kept);
    var back := if move then Rename(removed.world, r.backup.value, Manifest) else Go(removed.world);
    StepKeeps(back.world, Manifest, Manifest, r.(status := RolledBack), kept);
    var written := WriteReceipt(back.world, r.(status := RolledBack));
    hide Remove;
    hide Rename;
    hide WriteReceipt;
    assert Keeps(w, Halt(w, Io), kept) && Keeps(w, Halt(w, Conflict), kept);
    hide Keeps;
    KeepsChain(w, removed, back, kept);
    KeepsChain(w, back, written, kept);
  }

  lemma StuckStep(h: Hash, w: World, operation: string, call: Call)
    requires Stuck(w, operation)
    ensures var next := Perform(h, w, call);
      Stuck(next, operation) && next.receipts[operation] == w.receipts[operation]
  {
    hide RegisterNew;
    hide RollbackLocked;
    hide ReconcileFrom;
    match call
    case RegisterCall(req) =>
      if req.operation != operation { RegisterKeeps(h, Lock(w).world, req, operation); }
    case RollbackCall(other) =>
      if other in w.receipts && w.receipts[other].operation == other && other != operation {
        RollbackKeeps(h, Lock(w).world, w.receipts[other], operation);
      }
    case ReconcileCall(listing) =>
    case RebootCall(script) =>
    case EditCall(files) =>
  }

  /**
   A started receipt beside an unfinished receipt file: whatever is registered, rolled back, reconciled, restarted
   or edited afterwards, it stays started; every reconcile refuses, and so does a rollback of the operation.
   */
  lemma {:induction false} LeftoverBlocksForEver(h: Hash, w: World, operation: string, calls: seq<Call>,
      listing: seq<string>)
    requires Stuck(w, operation)
    ensures var last := Run(h, w, calls);
      && operation in last.receipts && last.receipts[operation] == w.receipts[operation]
      && Reconcile(h, last, listing) == Halt(last, Corrupt)
      && Rollback(h, last, operation) == Halt(last, Conflict)
    decreases |calls|
  {
    if calls != [] {
      StuckStep(h, w, operation, calls[0]);
      hide Perform;
      LeftoverBlocksForEver(h, Perform(h, w, calls[0]), operation, calls[1..], listing);
    }
  }

  /** Dying in the last receipt with an unfinished file gets there: new manifest in place, old one in the backup. */
  lemma CommitThatDiesIsStuck(h: Hash, w: World, req: Request, calls: seq<Call>)
    requires !w.locked && Fresh(w.files, req.nonce) && req.operation !in w.receipts && Manifest in w.files
    ensures var o := Register(h, w.(script := DiesInCommit(true)), req);
      var last := Run(h, o.world, calls);
      && At(o.world.files, Manifest) == Some(req.manifest)
      && At(o.world.files, Backup(req.nonce)) == At(w.files, Manifest)
      && req.operation in last.receipts && last.receipts[req.operation].status == Started
  {
    CommitDies(h, w, req, true);
    LeftoverBlocksForEver(h, Register(h, w.(script := DiesInCommit(true)), req).world, req.operation, calls, []);
    hide Register;
    hide Run;
  }

  // ----- several started receipts

  /** What a completed recovery of one receipt makes of the files. */
  ghost function Recovered(files: Files, r: Receipt): Files {
    var cleaned := files - {Manifest} - {r.temp};
    if r.backup.Some? && r.backup.value in cleaned
    then (cleaned - {r.backup.value})[Manifest := cleaned[r.backup.value]] else cleaned
  }

  ghost predicate IsStarted(w: World, s: string) {
    s in w.receipts && w.receipts[s].status == Started
  }

  /** The files after the started ones of the first n listed receipts were recovered, one after the other. */
  ghost function FilesAfter(w: World, listing: seq<string>, n: nat): Files
    requires n <= |listing|
  {
    if n == 0 then w.files
    else
      var before := FilesAfter(w, listing, n - 1);
      if IsStarted(w, listing[n - 1]) then Recovered(before, w.receipts[listing[n - 1]]) else before
  }

  /** Listed receipt i is started and its manifest step would meet a foreign manifest. */
  ghost predicate RefusedAt(h: Hash, w: World, listing: seq<string>, i: nat)
    requires i < |listing|
  {
    IsStarted(w, listing[i]) && !Acceptable(h, FilesAfter(w, listing, i), w.receipts[listing[i]])
  }

  /** The first refused receipt of the listing, or its end. */
  ghost predicate StopsAt(h: Hash, w: World, listing: seq<string>, stop: nat) {
    && stop <= |listing| && (forall i :: 0 <= i < stop ==> !RefusedAt(h, w, listing, i))
    && (stop < |listing| ==> RefusedAt(h, w, listing, stop))
  }

  /** The receipts after that. */
  ghost function ReceiptsAfter(w: World, listing: seq<string>, n: nat): map<string, Receipt>
    requires n <= |listing|
  {
    if n == 0 then w.receipts
    else
      var s, before := listing[n - 1], ReceiptsAfter(w, listing, n - 1);
      if IsStarted(w, s) then before[s := w.receipts[s].(status := Aborted)] else before
  }

  ghost function After(w: World, listing: seq<string>, n: nat): World
    requires n <= |listing|
  {
    w.(files := FilesAfter(w, listing, n), receipts := ReceiptsAfter(w, listing, n))
  }

  ghost predicate DistinctNames(listing: seq<string>) {
    forall i, j :: 0 <= i < j < |listing| ==> listing[i] != listing[j]
  }

  ghost predicate AllNamed(w: World, listing: seq<string>) {
    DistinctNames(listing) && forall s :: s in listing ==> s in w.receipts && w.receipts[s].operation == s
  }

  lemma {:induction false} SomeStop(h: Hash, w: World, listing: seq<string>, n: nat) returns (stop: nat)
    requires n <= |listing| && forall i :: 0 <= i < n ==> !RefusedAt(h, w, listing, i)
    ensures StopsAt(h, w, listing, stop)
    decreases |listing| - n
  {
    if n == |listing| || RefusedAt(h, w, listing, n) { stop := n; } else { stop := SomeStop(h, w, listing, n + 1); }
  }

  /** Fault-free recovery of one started receipt. */
  lemma RecoverIsRecovered(h: Hash, w: World, operation: string)
    requires w.script == [] && !w.locked && IsStarted(w, operation) && w.receipts[operation].operation == operation
    ensures var r := w.receipts[operation];
      Recover(h, w, operation) == if !Acceptable(h, w.files, r) then Halt(w, Conflict)
        else Go(w.(files := Recovered(w.files, r), receipts := w.receipts[operation := r.(status := Aborted)]))
  {
    var r := w.receipts[operation];
    if Acceptable(h, w.files, r) {
      var locked := Lock(w).world;
      var cleared := if Manifest in w.files then Remove(locked, Manifest) else Go(locked);
      assert cleared.world.files == w.files - {Manifest};
      var cleaned := if r.temp in cleared.world.files then Remove(cleared.world, r.temp) else cleared;
      assert cleaned.world.files == w.files - {Manifest} - {r.temp};
    }
  }

  /** The receipt of a name that has not come up yet is as it was. */
  lemma {:induction false} ReceiptsAfterAt(w: World, listing: seq<string>, n: nat, i: nat)
    requires AllNamed(w, listing) && n <= |listing| && i < |listing|
    ensures listing[i] in ReceiptsAfter(w, listing, n)
    ensures ReceiptsAfter(w, listing, n)[listing[i]] ==
      if i < n && IsStarted(w, listing[i]) then w.receipts[listing[i]].(status := Aborted) else w.receipts[listing[i]]
    decreases n
  {
    if n > 0 { ReceiptsAfterAt(w, listing, n - 1, i); }
  }

  lemma {:induction false} ScanFrom(h: Hash, w: World, listing: seq<string>, n: nat, stop: nat)
    requires w.script == [] && !w.locked && AllNamed(w, listing)
    requires n <= stop && StopsAt(h, w, listing, stop)
    ensures ReconcileFrom(h, After(w, listing, n), listing[n..]) ==
      if stop == |listing| then Go(After(w, listing, stop)) else Halt(After(w, listing, stop), Conflict)
    decreases stop - n
  {
    if n < |listing| {
      var now, s := After(w, listing, n), listing[n];
      ReceiptsAfterAt(w, listing, n, n);
      assert s in w.receipts && w.receipts[s].operation == s;
      if IsStarted(w, s) { RecoverIsRecovered(h, now, s); }
      assert listing[n..][0] == s && listing[n..][1..] == listing[n + 1..];
      hide Recovered;
      hide AllNamed;
      if n < stop {
        assert !RefusedAt(h, w, listing, n);
        assert Recover(h, now, s) == Go(After(w, listing, n + 1));
        hide Recover;
        ScanFrom(h, w, listing, n + 1, stop);
      } else {
        assert RefusedAt(h, w, listing, n);
        assert Recover(h, now, s) == Halt(now, Conflict);
        hide Recover;
      }
    }
  }

  /**
   Several started receipts, no faults: they are recovered in the order of the listing up to the first one whose
   manifest step meets a foreign manifest; that one and all after it keep their receipts.  Reconcile completes if and
   only if there is no such one.
   */
  lemma ReconcileInOrder(h: Hash, w: World, listing: seq<string>) returns (stop: nat)
    requires w.script == [] && !w.locked && w.strays == 0 && |listing| <= MAX_RECEIPTS && AllNamed(w, listing)
    ensures StopsAt(h, w, listing, stop)
    ensures var o := Reconcile(h, w, listing);
      && o == (if stop == |listing| then Go(After(w, listing, stop)) else Halt(After(w, listing, stop), Conflict))
      && forall i :: 0 <= i < |listing| ==>
           && listing[i] in o.world.receipts
           && o.world.receipts[listing[i]] ==
                if i < stop && IsStarted(w, listing[i]) then w.receipts[listing[i]].(status := Aborted)
                else w.receipts[listing[i]]
  {
    stop := SomeStop(h, w, listing, 0);
    ScanFrom(h, w, listing, 0, stop);
    assert After(w, listing, 0) == w && listing[0..] == listing;
    forall i | 0 <= i < |listing|
      ensures listing[i] in ReceiptsAfter(w, listing, stop)
      ensures ReceiptsAfter(w, listing, stop)[listing[i]] ==
        if i < stop && IsStarted(w, listing[i]) then w.receipts[listing[i]].(status := Aborted)
        else w.receipts[listing[i]]
    {
      ReceiptsAfterAt(w, listing, stop, i);
    }
    hide ReconcileFrom;
    hide StopsAt;
    hide AllNamed;
    hide FilesAfter;
    hide ReceiptsAfter;
  }

  lemma SwappedRecovers(h: Hash, w: World, req: Request, orig: Files)
    requires w.script == [] && !w.locked && Fresh(orig, req.nonce) && Manifest in orig && w.files == Swapped(orig, req)
    requires req.operation in w.receipts && w.receipts[req.operation] == NewReceipt(h, orig, req)
    ensures Recover(h, w, req.operation) == Go(w.(files := orig,
      receipts := w.receipts[req.operation := w.receipts[req.operation].(status := Aborted)]))
  {
    RecoverIsRecovered(h, w, req.operation);
    hide Recover;
    SameMap(Recovered(w.files, w.receipts[req.operation]), orig);
  }

  lemma ScanOfTwo(h: Hash, w: World, a: string, b: string)
    ensures var o := Recover(h, w, a);
      ReconcileFrom(h, w, [a, b]) == if o.Go? then Recover(h, o.world, b) else o
  {
    hide Recover;
    var o := Recover(h, w, a);
    assert [a, b][1..] == [b] && [b][1..] == [];
    if o.Go? {
      var last := Recover(h, o.world, b);
      assert last.Go? ==> ReconcileFrom(h, last.world, []) == last;
      assert ReconcileFrom(h, o.world, [b]) == last;
    }
  }

  lemma StackRecovers(h: Hash, w: World, a: Request, b: Request, orig: Files)
    requires w.script == [] && !w.locked && w.strays == 0 && a.operation != b.operation && a.nonce != b.nonce
    requires Manifest in orig && Fresh(orig, a.nonce) && Fresh(orig, b.nonce)
    requires w.files == Swapped(Swapped(orig, a), b) && w.receipts.Keys >= {a.operation, b.operation}
    requires w.receipts[a.operation] == NewReceipt(h, orig, a)
    requires w.receipts[b.operation] == NewReceipt(h, Swapped(orig, a), b)
    ensures var later := Reconcile(h, w, [b.operation, a.operation]); later.Go? && later.world.files == orig
    ensures h(a.manifest) != h(b.manifest) ==>
      Reconcile(h, w, [a.operation, b.operation]) == Halt(w, Conflict)
  {
    SwappedRecovers(h, w, b, Swapped(orig, a));
    var between := Recover(h, w, b.operation).world;
    SwappedRecovers(h, between, a, orig);
    ScanOfTwo(h, w, b.operation, a.operation);
    ScanOfTwo(h, w, a.operation, b.operation);
    RecoverIsRecovered(h, w, a.operation);
    hide Recover;
    hide ReconcileFrom;
    hide Recovered;
  }

  /**
   Two registrations that die in their last receipt, the second over the first after the lock was cleared: listed later
   one first, reconcile restores everything; listed the other way round it refuses and changes nothing, if the two
   manifests hash differently.
   */
  lemma TwoCrashes(h: Hash, w: World, a: Request, b: Request)
    requires !w.locked && w.strays == 0 && Manifest in w.files && a.operation != b.operation && a.nonce != b.nonce
    requires Fresh(w.files, a.nonce) && Fresh(w.files, b.nonce)
    requires a.operation !in w.receipts && b.operation !in w.receipts
    ensures var first := Register(h, w.(script := DiesInCommit(false)), a).world;
      var second := Reboot(Register(h, Reboot(first, DiesInCommit(false)), b).world, []);
      && var later := Reconcile(h, second, [b.operation, a.operation]);
      && later.Go? && later.world.files == w.files
      && (h(a.manifest) != h(b.manifest) ==>
            Reconcile(h, second, [a.operation, b.operation]) == Halt(second, Conflict))
  {
    CommitDies(h, w, a, false);
    var first := Register(h, w.(script := DiesInCommit(false)), a).world;
    CommitDies(h, Reboot(first, []), b, false);
    assert Reboot(first, DiesInCommit(false)) == Reboot(first, []).(script := DiesInCommit(false));
    var second := Reboot(Register(h, Reboot(first, DiesInCommit(false)), b).world, []);
    hide Register;
    hide Reconcile;
    StackRecovers(h, second, a, b, w.files);
  }
}
