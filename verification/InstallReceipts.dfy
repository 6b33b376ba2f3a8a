/** The receipt invariant over every run of installs, rollbacks and reconciles, whatever fails. */
module InstallReceipts {
  import opened InstallModel
  import opened RestoreProofs

  ghost predicate ReceiptsValid(receipts: map<string, Receipt>) {
    forall op :: op in receipts ==> ValidReceipt(receipts[op], op)
  }

  /** Valid receipts stay valid, and no operation id is ever bound to another digest. */
  ghost predicate Sound(w: World, w': World) {
    && (ReceiptsValid(w.receipts) ==> ReceiptsValid(w'.receipts))
    && forall op :: op in w.receipts ==> op in w'.receipts && w'.receipts[op].digest == w.receipts[op].digest
  }

  /** A valid receipt does not stay valid when an entry of a list, the count, the name or a settled phase changes. */
  lemma TamperingIsNoticed(r: Receipt, operation: string, i: nat, p: Path, n: nat, phase: Phase)
    requires ValidReceipt(r, operation) && i < |r.targets|
    ensures ValidReceipt(r.(destinations := r.destinations[i := p]), operation) ==> p == r.destinations[i]
    ensures ValidReceipt(r.(backups := r.backups[i := p]), operation) ==> p == r.backups[i]
    ensures ValidReceipt(r.(targets := r.targets[..i] + r.targets[i + 1..]), operation) ==> false
    ensures ValidReceipt(r.(count := n), operation) ==> n == r.count
    ensures forall name :: ValidReceipt(r, name) ==> name == operation
    ensures ValidReceipt(SetPhase(r, i, phase), operation) <==> r.status == Started || phase == r.targets[i].phase
    ensures 0 < |r.targets| <= MAX_TARGETS
  {
    var destinations := r.(destinations := r.destinations[i := p]);
    var backups := r.(backups := r.backups[i := p]);
    var phased := SetPhase(r, i, phase);
    assert ValidTarget(r, i);
    assert ValidReceipt(destinations, operation) ==> ValidTarget(destinations, i);
    assert ValidReceipt(backups, operation) ==> ValidTarget(backups, i);
    assert ValidReceipt(phased, operation) ==> ValidTarget(phased, i);
    if r.status == Started || phase == r.targets[i].phase {
      forall j | 0 <= j < |phased.targets| ensures ValidTarget(phased, j) { assert ValidTarget(r, j); }
    }
  }

  lemma SameReceiptsSound(w: World, w': World)
    requires w'.receipts == w.receipts
    ensures Sound(w, w')
  {
  }

  lemma WriteSound(w: World, r: Receipt)
    requires ReceiptsValid(w.receipts) ==> ValidReceipt(r, r.operation)
    requires r.operation in w.receipts ==> w.receipts[r.operation].digest == r.digest
    ensures Sound(w, WriteReceipt(w, r).world)
  {
    var o := WriteReceipt(w, r);
    forall op | ReceiptsValid(w.receipts) && op in o.world.receipts ensures ValidReceipt(o.world.receipts[op], op) {
      hide ValidReceipt;
    }
  }

  lemma {:induction false} RestoreDownReceipts(h: Hash, w: World, targets: seq<Target>, n: nat, lenient: bool,
      digest: string)
    requires n <= |targets|
    ensures RestoreDown(h, w, targets, n, lenient, digest).world.receipts == w.receipts
    decreases n
  {
    if n > 0 {
      var o := RestoreTarget(h, w, targets[n - 1], lenient, digest);
      RestoreTargetReceipts(h, w, targets[n - 1], lenient, digest);
      hide RestoreTarget;
      if o.Go? {
        RestoreDownReceipts(h, o.world, targets, n - 1, lenient, digest);
      }
    }
  }

  lemma RestoreTargetReceipts(h: Hash, w: World, t: Target, lenient: bool, digest: string)
    ensures RestoreTarget(h, w, t, lenient, digest).world.receipts == w.receipts
  {
    RenameStep(w, t.backup, t.destination);
    RemoveStep(w, t.destination);
    RenameStep(RemoveIfPresent(w, t.destination).world, t.backup, t.destination);
    RemoveStep(BringBack(h, w, t, lenient, digest).world, t.temp);
    hide Rename;
    hide RemoveIfPresent;
    hide SameExcept;
  }

  lemma {:induction false} RemoveTempsReceipts(w: World, targets: seq<Target>)
    ensures RemoveTemps(w, targets).world.receipts == w.receipts
    decreases |targets|
  {
    if targets != [] {
      var o := RemoveQuietly(w, targets[0].temp);
      assert o.world.receipts == w.receipts;
      hide RemoveQuietly;
      if o.Go? {
        RemoveTempsReceipts(o.world, targets[1..]);
      }
    }
  }

  lemma {:induction false} StageFromReceipts(w: World, req: Request, staged: seq<Target>)
    requires |staged| <= |req.destinations| && forall i :: 0 <= i < |staged| ==> staged[i] == MakeTarget(req, i)
    ensures var (o, targets) := StageFrom(w, req, staged);
      && o.world.receipts == w.receipts
      && (o.Go? ==> forall i :: 0 <= i < |targets| ==> targets[i] == MakeTarget(req, i))
    decreases |req.destinations| - |staged|
  {
    if |staged| < |req.destinations| {
      var t := MakeTarget(req, |staged|);
      var copied := CopyPackage(w, t.temp, req.package);
      assert copied.world.receipts == w.receipts;
      hide CopyPackage;
      if copied.Go? {
        StageFromReceipts(copied.world, req, staged + [t]);
      } else {
        RemoveTempsReceipts(copied.world, staged + [t]);
      }
    }
  }

  /** A started receipt that may be written over what is recorded. */
  ghost predicate InProgress(w: World, r: Receipt) {
    && r.status == Started && ValidReceipt(r, r.operation)
    && r.operation in w.receipts && w.receipts[r.operation].digest == r.digest
  }

  lemma PhaseInProgress(w: World, r: Receipt, i: nat, phase: Phase)
    requires i < |r.targets| && InProgress(w, r)
    ensures InProgress(w, SetPhase(r, i, phase))
  {
    var s := SetPhase(r, i, phase);
    forall j | 0 <= j < |s.targets| ensures ValidTarget(s, j) {
      assert ValidTarget(r, j);
    }
  }

  lemma WriteInProgress(w: World, r: Receipt)
    requires InProgress(w, r)
    ensures var o := WriteReceipt(w, r); Sound(w, o.world) && InProgress(o.world, r)
  {
    WriteSound(w, r);
    hide ValidReceipt;
  }

  lemma SameReceiptsInProgress(w: World, w': World, r: Receipt)
    requires InProgress(w, r) && w'.receipts == w.receipts
    ensures InProgress(w', r) && Sound(w, w')
  {
    hide ValidReceipt;
  }

  lemma SoundChain(u: World, v: World, w: World)
    requires Sound(u, v) && Sound(v, w)
    ensures Sound(u, w)
  {
  }

  lemma SwapTargetSound(w: World, r: Receipt, i: nat)
    requires i < |r.targets| && InProgress(w, r)
    ensures var (o, live) := SwapTarget(w, r, i);
      && Sound(w, o.world) && InProgress(o.world, live)
      && live.digest == r.digest && live.operation == r.operation
      && (o.Go? ==> live == SetPhase(SetPhase(r, i, BackedUp), i, Swapped))
  {
    hide Rename;
    hide WriteReceipt;
    hide InProgress;
    hide Sound;
    var t := r.targets[i];
    var saved := if t.destination in w.files then Rename(w, t.destination, t.backup) else Go(w);
    RenameStep(w, t.destination, t.backup);
    hide SameExcept;
    SameReceiptsInProgress(w, saved.world, r);
    var backedUp := SetPhase(r, i, BackedUp);
    PhaseInProgress(saved.world, r, i, BackedUp);
    var noted := WriteReceipt(saved.world, backedUp);
    WriteInProgress(saved.world, backedUp);
    SoundChain(w, saved.world, noted.world);
    var moved := Rename(noted.world, t.temp, t.destination);
    RenameStep(noted.world, t.temp, t.destination);
    SameReceiptsInProgress(noted.world, moved.world, backedUp);
    SoundChain(w, noted.world, moved.world);
    var swapped := SetPhase(backedUp, i, Swapped);
    PhaseInProgress(moved.world, backedUp, i, Swapped);
    WriteInProgress(moved.world, swapped);
    SoundChain(w, moved.world, WriteReceipt(moved.world, swapped).world);
  }

  lemma {:induction false} SwapFromSound(w: World, r: Receipt, i: nat)
    requires i <= |r.targets| && InProgress(w, r)
    requires forall j :: 0 <= j < i ==> r.targets[j].phase == Swapped
    ensures var (o, live) := SwapFrom(w, r, i);
      && Sound(w, o.world) && InProgress(o.world, live)
      && live.digest == r.digest && live.operation == r.operation
      && (o.Go? ==> forall j :: 0 <= j < |live.targets| ==> live.targets[j].phase == Swapped)
    decreases |r.targets| - i
  {
    hide SwapTarget;
    if i < |r.targets| {
      var (o, live) := SwapTarget(w, r, i);
      SwapTargetSound(w, r, i);
      hide InProgress;
      hide Sound;
      if o.Go? {
        SwapFromSound(o.world, live, i + 1);
        SoundChain(w, o.world, SwapFrom(o.world, live, i + 1).0.world);
      }
    }
  }

  lemma ClosedStaysValid(r: Receipt)
    requires ValidReceipt(r, r.operation)
    ensures ValidReceipt(Closed(r), r.operation)
  {
    forall i | 0 <= i < |r.targets| ensures ValidTarget(Closed(r), i) {
      assert ValidTarget(r, i);
    }
  }

  lemma CommittedIsValid(r: Receipt)
    requires ValidReceipt(r, r.operation) && forall j :: 0 <= j < |r.targets| ==> r.targets[j].phase == Swapped
    ensures ValidReceipt(r.(status := Committed), r.operation)
  {
    forall i | 0 <= i < |r.targets| ensures ValidTarget(r.(status := Committed), i) {
      assert ValidTarget(r, i);
    }
  }

  lemma SwapAllSound(h: Hash, w: World, r: Receipt)
    requires InProgress(w, r)
    ensures Sound(w, SwapAll(h, w, r).world)
  {
    SwapFromSound(w, r, 0);
    var (o, live) := SwapFrom(w, r, 0);
    hide SwapFrom;
    if o.Go? {
      CommittedIsValid(live);
      WriteSound(o.world, live.(status := Committed));
      SoundChain(w, o.world, WriteReceipt(o.world, live.(status := Committed)).world);
    } else {
      AbortSound(h, o.world, live, o.why);
      SoundChain(w, o.world, AbortInstall(h, o.world, live, o.why).world);
    }
    hide AbortInstall;
    hide WriteReceipt;
    hide Sound;
  }

  lemma AbortSound(h: Hash, w: World, live: Receipt, cause: Error)
    requires InProgress(w, live)
    ensures Sound(w, AbortInstall(h, w, live, cause).world)
  {
    var restored := RestoreDown(h, w, live.targets, |live.targets|, false, live.digest);
    RestoreDownReceipts(h, w, live.targets, |live.targets|, false, live.digest);
    hide RestoreDown;
    ClosedStaysValid(live);
    SameReceiptsSound(w, restored.world);
    WriteSound(restored.world, Closed(live));
    hide ValidReceipt;
    hide ReceiptsValid;
    hide WriteReceipt;
    SoundChain(w, restored.world, WriteReceipt(restored.world, Closed(live)).world);
    hide Sound;
  }

  lemma NewReceiptIsValid(h: Hash, req: Request, targets: seq<Target>)
    requires 0 < |req.destinations| <= MAX_TARGETS && |targets| == |req.destinations|
    requires forall i :: 0 <= i < |targets| ==> targets[i] == MakeTarget(req, i)
    ensures ValidReceipt(NewReceipt(h, req, targets), req.operation)
  {
  }

  lemma InstallStagedSound(h: Hash, w: World, req: Request, targets: seq<Target>)
    requires 0 < |req.destinations| <= MAX_TARGETS && |targets| == |req.destinations|
    requires forall i :: 0 <= i < |targets| ==> targets[i] == MakeTarget(req, i)
    requires req.operation in w.receipts ==> w.receipts[req.operation].digest == PackageDigest(h, req)
    ensures Sound(w, InstallStaged(h, w, req, targets).world)
  {
    var r := NewReceipt(h, req, targets);
    NewReceiptIsValid(h, req, targets);
    WriteSound(w, r);
    var noted := WriteReceipt(w, r);
    hide ValidReceipt;
    if noted.Go? {
      SwapAllSound(h, noted.world, r);
      SoundChain(w, noted.world, SwapAll(h, noted.world, r).world);
      hide SwapAll;
    } else {
      RemoveTempsReceipts(noted.world, targets);
      hide RemoveTemps;
    }
    hide ReceiptsValid;
  }

  lemma InstallFreshSound(h: Hash, w: World, req: Request)
    requires 0 < |req.destinations| <= MAX_TARGETS
    requires req.operation in w.receipts ==> w.receipts[req.operation].digest == PackageDigest(h, req)
    ensures Sound(w, InstallFresh(h, w, req).world)
  {
    StageFromReceipts(w, req, []);
    var (o, targets) := StageFrom(w, req, []);
    hide StageFrom;
    hide Sound;
    SameReceiptsSound(w, w);
    SameReceiptsSound(w, o.world);
    if o.Go? {
      InstallStagedSound(h, o.world, req, targets);
      hide InstallStaged;
      SoundChain(w, o.world, InstallStaged(h, o.world, req, targets).world);
    }
  }

  lemma InstallSound(h: Hash, w: World, req: Request)
    ensures Sound(w, Install(h, w, req).world)
  {
    hide InstallLocked;
    hide ReceiptsValid;
    if 0 < |req.destinations| <= MAX_TARGETS && Lock(w).Go? {
      InstallLockedSound(h, Lock(w).world, req);
    }
  }

  lemma InstallLockedSound(h: Hash, w: World, req: Request)
    requires 0 < |req.destinations| <= MAX_TARGETS
    ensures Sound(w, InstallLocked(h, w, req).world)
  {
    hide Sound;
    hide ValidReceipt;
    hide Retryable;
    hide InstallFresh;
    SameReceiptsSound(w, w);
    if req.operation in w.receipts ==> w.receipts[req.operation].digest == PackageDigest(h, req) {
      InstallFreshSound(h, w, req);
    }
    hide PackageDigest;
  }

  lemma RollbackLockedSound(h: Hash, w: World, operation: string)
    requires operation in w.receipts && w.receipts[operation].operation == operation
    ensures Sound(w, RollbackLocked(h, w, w.receipts[operation]).world)
  {
    hide AllAcceptable;
    hide Sound;
    SameReceiptsSound(w, w);
    var r := w.receipts[operation];
    var restored := RestoreDown(h, w, r.targets, |r.targets|, true, r.digest);
    RestoreDownReceipts(h, w, r.targets, |r.targets|, true, r.digest);
    hide RestoreDown;
    SameReceiptsSound(w, restored.world);
    if ReceiptsValid(restored.world.receipts) {
      assert ValidReceipt(restored.world.receipts[operation], operation);
      ClosedStaysValid(r);
    }
    hide ReceiptsValid;
    hide ValidReceipt;
    WriteSound(restored.world, Closed(r));
    hide WriteReceipt;
    SoundChain(w, restored.world, WriteReceipt(restored.world, Closed(r)).world);
  }

  lemma RollbackSound(h: Hash, w: World, operation: string)
    ensures Sound(w, Rollback(h, w, operation).world)
  {
    hide ReceiptsValid;
    if operation in w.receipts && w.receipts[operation].operation == operation {
      RollbackLockedSound(h, Lock(w).world, operation);
      hide RollbackLocked;
    }
  }

  lemma {:induction false} ReconcileSound(h: Hash, w: World, listing: seq<string>)
    ensures Sound(w, ReconcileFrom(h, w, listing).world)
    decreases |listing|
  {
    if listing != [] {
      var o := Rollback(h, w, listing[0]);
      RollbackSound(h, w, listing[0]);
      hide Rollback;
      hide ValidReceipt;
      if o.Go? {
        ReconcileSound(h, o.world, listing[1..]);
        SoundChain(w, o.world, ReconcileFrom(h, o.world, listing[1..]).world);
      }
      ReconcileSound(h, w, listing[1..]);
      hide ReceiptsValid;
    }
  }

  // ----- whole runs

  /** What can happen to a transaction directory, in any order; outside edits may replace all files. */
  datatype Call =
    | InstallCall(request: Request)
    | RollbackCall(operation: string)
    | ReconcileCall(listing: seq<string>)
    | Restart(script: seq<Event>)
    | Edit(files: Files)

  function Perform(h: Hash, w: World, call: Call): World {
    match call
    case InstallCall(req) => Install(h, w, req).world
    case RollbackCall(operation) => Rollback(h, w, operation).world
    case ReconcileCall(listing) => Reconcile(h, w, listing).world
    case Restart(script) => Reboot(w, script)
    case Edit(files) => w.(files := files)
  }

  function Run(h: Hash, w: World, calls: seq<Call>): World
    decreases |calls|
  {
    if calls == [] then w else Run(h, Perform(h, w, calls[0]), calls[1..])
  }

  /** In every run every recorded receipt passes validation, and every operation id keeps its digest. */
  lemma {:induction false} RunSound(h: Hash, w: World, calls: seq<Call>)
    ensures Sound(w, Run(h, w, calls))
    decreases |calls|
  {
    if calls != [] {
      var next := Perform(h, w, calls[0]);
      match calls[0] {
        case InstallCall(req) => InstallSound(h, w, req);
        case RollbackCall(operation) => RollbackSound(h, w, operation);
        case ReconcileCall(listing) => ReconcileSound(h, w, listing);
        case Restart(_) =>
        case Edit(_) =>
      }
      assert Sound(w, next);
      RunSound(h, next, calls[1..]);
      SoundChain(w, next, Run(h, next, calls[1..]));
    }
  }

  /** From an empty transaction directory. */
  lemma EveryReceiptIsValid(h: Hash, w: World, calls: seq<Call>)
    requires w.receipts == map[]
    ensures ReceiptsValid(Run(h, w, calls).receipts)
  {
    RunSound(h, w, calls);
  }

  /** After a commit, whatever happens in between: replaying the operation while it is committed changes no file and
      no receipt, and no other package can take its id. */
  lemma ReplayIsHarmless(h: Hash, w: World, calls: seq<Call>, req: Request)
    requires ReceiptsValid(w.receipts) && req.operation in w.receipts && 0 < |req.destinations| <= MAX_TARGETS
    ensures var now := Run(h, w, calls);
      var o := Install(h, now, req);
      && req.operation in now.receipts
      && (PackageDigest(h, req) != w.receipts[req.operation].digest ==>
            o.Halt? && o.world.files == now.files && o.world.receipts == now.receipts)
      && (now.receipts[req.operation].status == Committed ==>
            && o.world.files == now.files && o.world.receipts == now.receipts
            && (now.script == [] && !now.locked ==>
              (o.Go? <==> PackageDigest(h, req) == w.receipts[req.operation].digest)))
  {
    RunSound(h, w, calls);
    var now := Run(h, w, calls);
    hide Run;
    assert ValidReceipt(now.receipts[req.operation], req.operation);
    hide ValidReceipt;
    hide InstallFresh;
    hide Retryable;
  }
}
