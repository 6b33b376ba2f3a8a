/** Where the promises of recovery end: concrete or exact conditions. */
module InstallLimits {
  import opened Wrappers
  import opened InstallModel
  import opened RestoreProofs
  import opened InstallTheorems
  import opened InstallReceipts
  import opened InstallCleanup
  import opened InstallEvents
  import opened InstallRefusals
  import opened InstallSurvival

  // ----- a failed install whose undo dies

  const UNDO_DIES: seq<Event> := [Done, Done, Done, Done, Done, Fails(None, false), Done, Dies(None, false)]

  /** One occupied destination, staged, with the swap loop about to start. */
  ghost predicate StagedAlone(w: World, r: Receipt) {
    && |r.targets| == 1 && r.targets[0].phase == Prepared && SelfApart(r.targets[0])
    && var t := r.targets[0];
    && t.destination in w.files && t.temp in w.files && t.backup !in w.files
  }

  /** The second rename of the swap loop fails. */
  lemma SwapFails(w: World, r: Receipt)
    requires StagedAlone(w, r) && w.script == UNDO_DIES[3..]
    ensures var t := r.targets[0]; var live := SetPhase(r, 0, BackedUp);
      var o := SwapFrom(w, r, 0).0;
      && SwapFrom(w, r, 0).1 == live && o.Halt? && o.why == Io && o.world.script == UNDO_DIES[6..]
      && o.world.receipts == w.receipts[r.operation := live]
      && o.world.files == (w.files - {t.destination})[t.backup := w.files[t.destination]]
  {
    var t := r.targets[0];
    var saved := Rename(w, t.destination, t.backup);
    assert saved.Go? && saved.world.script == UNDO_DIES[4..];
    var live := SetPhase(r, 0, BackedUp);
    var noted := WriteReceipt(saved.world, live);
    assert noted.Go? && noted.world.script == UNDO_DIES[5..];
    var moved := Rename(noted.world, t.temp, t.destination);
    assert moved == Halt(Tick(noted.world), Io);
    assert moved.world.script == UNDO_DIES[6..];
    assert SwapTarget(w, r, 0) == (moved, live);
  }

  /** The undo brings the tree home and dies at the temp, before its receipt. */
  lemma UndoDies(h: Hash, w: World, live: Receipt)
    requires |live.targets| == 1 && live.targets[0].phase == BackedUp && SelfApart(live.targets[0])
    requires var t := live.targets[0]; t.destination !in w.files && t.temp in w.files && t.backup in w.files
    requires w.script == UNDO_DIES[6..]
    ensures var t := live.targets[0]; var o := AbortInstall(h, w, live, Io);
      && o.Halt? && o.why == Crash && o.world.receipts == w.receipts
      && At(o.world.files, t.destination) == Some(w.files[t.backup])
      && t.backup !in o.world.files && t.temp !in o.world.files
  {
    var t := live.targets[0];
    var back := Rename(w, t.backup, t.destination);
    assert back.Go? && back.world.script == UNDO_DIES[7..] && t.temp in back.world.files;
    assert BringBack(h, w, t, false, live.digest) == back;
    var dead := Remove(back.world, t.temp);
    assert dead.Halt? && dead.why == Crash;
    assert RestoreTarget(h, w, t, false, live.digest) == dead;
    assert RestoreDown(h, w, live.targets, 1, false, live.digest) == dead;
  }

  lemma SwapAllUndoDies(h: Hash, w: World, r: Receipt)
    requires StagedAlone(w, r) && w.script == UNDO_DIES[3..]
    ensures var o := SwapAll(h, w, r);
      && o.Halt? && o.why == Crash && o.world.receipts == w.receipts[r.operation := SetPhase(r, 0, BackedUp)]
      && At(o.world.files, r.targets[0].destination) == Some(w.files[r.targets[0].destination])
      && r.targets[0].backup !in o.world.files && r.targets[0].temp !in o.world.files
  {
    SwapFails(w, r);
    hide SwapFrom;
    UndoDies(h, SwapFrom(w, r, 0).0.world, SetPhase(r, 0, BackedUp));
    hide AbortInstall;
  }

  /** One destination, nothing in the way: the package is staged. */
  lemma StagesAlone(w: World, req: Request)
    requires |req.destinations| == 1 && Peek(w) == Done
    requires MakeTarget(req, 0).temp !in w.files && MakeTarget(req, 0).backup !in w.files
    ensures var t := MakeTarget(req, 0);
      StageFrom(w, req, []) == (Go(Tick(w).(files := w.files[t.temp := PackageTree(req.package)])), [t])
  {
    var t := MakeTarget(req, 0);
    var copied := CopyPackage(w, t.temp, req.package);
    assert [] + [t] == [t];
    assert StageFrom(copied.world, req, [t]) == (copied, [t]);
  }

  /** Up to the swap loop everything goes well. */
  lemma ReachesSwap(h: Hash, w: World, req: Request) returns (staged: World)
    requires Proper(req) && Startable(h, w, req) && |req.destinations| == 1 && req.operation !in w.receipts
    requires req.destinations[0] in w.files
    ensures var r := PlanReceipt(h, req);
      && StagedAlone(staged, r) && staged.script == UNDO_DIES[3..]
      && staged.files == w.files[MakeTarget(req, 0).temp := PackageTree(req.package)]
      && staged.receipts == w.receipts[req.operation := r]
      && Install(h, w.(script := UNDO_DIES), req) == Unlock(SwapAll(h, staged, r))
  {
    hide StageFrom;
    hide SwapAll;
    hide PackageTree;
    hide ReusableId;
    hide PackageDigest;
    var t := MakeTarget(req, 0);
    var locked := Lock(w.(script := UNDO_DIES));
    assert locked.Go? && locked.world.script == UNDO_DIES[1..] && locked.world.files == w.files;
    assert Plan(req)[0] == t && Plan(req) == [t];
    StagesAlone(locked.world, req);
    var copied := StageFrom(locked.world, req, []).0;
    assert copied.Go? && copied.world.script == UNDO_DIES[2..];
    var noted := WriteReceipt(copied.world, PlanReceipt(h, req));
    assert noted.Go? && noted.world.script == UNDO_DIES[3..];
    staged := noted.world;
    assert InstallStaged(h, copied.world, req, [t]) == SwapAll(h, staged, PlanReceipt(h, req));
    hide InstallStaged;
    assert InstallFresh(h, locked.world, req) == SwapAll(h, staged, PlanReceipt(h, req));
  }

  /** The receipt still says backed up, with the old tree back home and nothing else left. */
  ghost predicate UndoneUnrecorded(w: World, operation: string, t: Target, was: Tree) {
    && operation in w.receipts
    && var r := w.receipts[operation];
    && r.operation == operation && r.status == Started && r.targets == [t.(phase := BackedUp)] && SelfApart(t)
    && At(w.files, t.destination) == Some(was) && t.temp !in w.files && t.backup !in w.files
  }

  lemma UndoDiesUnrecorded(h: Hash, w: World, req: Request)
    requires Proper(req) && Startable(h, w, req) && |req.destinations| == 1 && req.operation !in w.receipts
    requires req.destinations[0] in w.files
    ensures var o := Install(h, w.(script := UNDO_DIES), req);
      && o.Halt? && o.why == Crash
      && UndoneUnrecorded(o.world, req.operation, MakeTarget(req, 0), w.files[req.destinations[0]])
      && o.world.receipts[req.operation].digest == PackageDigest(h, req)
  {
    var staged := ReachesSwap(h, w, req);
    hide Install;
    hide Startable;
    hide SwapAll;
    var r := PlanReceipt(h, req);
    SwapAllUndoDies(h, staged, r);
    assert r.targets[0] == MakeTarget(req, 0);
    assert SwapAll(h, staged, r).world.receipts[req.operation] == SetPhase(r, 0, BackedUp);
  }

  lemma UndoneIsRefusedOrDeleted(h: Hash, w: World, operation: string, t: Target, was: Tree)
    requires UndoneUnrecorded(w, operation, t, was)
    ensures var r := w.receipts[operation];
      && (AllAcceptable(h, w.files, r) <==> HasDigest(h, was, r.digest))
      && (HasDigest(h, was, r.digest) ==>
            var next := Rollback(h, Reboot(w, []), operation);
            && next.Go? && t.destination !in next.world.files && t.backup !in next.world.files)
  {
    var r := w.receipts[operation];
    assert AllAcceptable(h, w.files, r) <==> Acceptable(h, w.files, r.targets[0], r.digest);
    assert !AnyBlocked(w.files, r.targets, 1);
    if HasDigest(h, was, r.digest) {
      hide AllAcceptable;
      hide AnyBlocked;
      hide Rollback;
      DeletesLookalike(h, Reboot(w, []), operation, 0);
    }
  }

  /**
   A failure followed by a crash inside the undo: the old tree is back home, but the durable receipt still says
   backed up.  If the old tree does not hash like the package, every later rollback takes it for a foreign one and
   refuses, however often it runs; if it does, the next rollback takes it for the package and deletes it.
   */
  lemma UndoThatDies(h: Hash, w: World, req: Request, scripts: seq<seq<Event>>)
    requires Proper(req) && Startable(h, w, req) && |req.destinations| == 1 && req.operation !in w.receipts
    requires req.destinations[0] in w.files
    ensures var o := Install(h, w.(script := UNDO_DIES), req);
      var destination := req.destinations[0];
      && o.Halt? && o.why == Crash && req.operation in o.world.receipts
        && o.world.receipts[req.operation].status == Started
      && At(o.world.files, destination) == Some(w.files[destination])
      && if HasDigest(h, w.files[destination], PackageDigest(h, req)) then
           var next := Rollback(h, Reboot(o.world, []), req.operation);
           && next.Go? && destination !in next.world.files && MakeTarget(req, 0).backup !in next.world.files
         else
           var last := Reruns(h, o.world, req.operation, scripts);
           last.files == o.world.files && last.receipts == o.world.receipts
  {
    var o := Install(h, w.(script := UNDO_DIES), req);
    UndoDiesUnrecorded(h, w, req);
    hide Install;
    hide Rollback;
    hide Reruns;
    hide HasDigest;
    hide AllAcceptable;
    hide Startable;
    UndoneIsRefusedOrDeleted(h, o.world, req.operation, MakeTarget(req, 0), w.files[req.destinations[0]]);
    if !HasDigest(h, w.files[req.destinations[0]], PackageDigest(h, req)) {
      UnacceptableForEver(h, o.world, req.operation, scripts);
    }
  }

  // ----- staging that meets a temp or backup of its own name

  ghost predicate SlotTaken(files: Files, req: Request, i: nat)
    requires i < |req.destinations|
  {
    MakeTarget(req, i).temp in files || MakeTarget(req, i).backup in files
  }

  ghost predicate FirstTaken(files: Files, req: Request, first: nat) {
    && first < |req.destinations| && SlotTaken(files, req, first)
    && forall i :: 0 <= i < first ==> !SlotTaken(files, req, i)
  }

  /** The package in the temps of targets i, ..., n-1. */
  ghost function WithTemps(files: Files, req: Request, i: nat, n: nat): Files
    requires i <= n <= |req.destinations|
    decreases n - i
  {
    if i == n then files else WithTemps(files[MakeTarget(req, i).temp := PackageTree(req.package)], req, i + 1, n)
  }

  lemma {:induction false} WithTempsKeeps(files: Files, req: Request, i: nat, n: nat, p: Path)
    requires i <= n <= |req.destinations| && p in files
    ensures p in WithTemps(files, req, i, n)
    decreases n - i
  {
    if i < n { WithTempsKeeps(files[MakeTarget(req, i).temp := PackageTree(req.package)], req, i + 1, n, p); }
  }

  /** Without faults the copies before the taken slot stay. */
  lemma {:induction false} StagingStops(w: World, req: Request, staged: seq<Target>, first: nat)
    requires w.script == [] && |staged| <= first < |req.destinations| && SlotTaken(w.files, req, first)
    requires forall i :: |staged| <= i < first ==> !SlotTaken(w.files, req, i)
    ensures StageFrom(w, req, staged).0 == Halt(w.(files := WithTemps(w.files, req, |staged|, first)), Conflict)
    decreases first - |staged|
  {
    if |staged| < first {
      var t := MakeTarget(req, |staged|);
      assert !SlotTaken(w.files, req, |staged|);
      var next := CopyPackage(w, t.temp, req.package).world;
      forall i | |staged| < i < first ensures !SlotTaken(next.files, req, i) {
        assert !SlotTaken(w.files, req, i);
      }
      StagingStops(next, req, staged + [t], first);
    }
  }

  /**
   A fault-free install of a fresh operation, with the request otherwise in order: it commits if and only if no temp
   or backup name is taken; if one is, it is refused, and the files are unchanged if and only if it is the very first.
   */
  lemma TakenSlotLeavesTemps(h: Hash, w: World, req: Request, first: nat)
    requires Proper(req) && w.script == [] && !w.locked && 0 < |req.destinations| <= MAX_TARGETS
    requires Distinct(req.destinations) && ReusableId(h, w, req)
    ensures var o := Install(h, w, req);
      && (o.Go? <==> Clean(w.files, Plan(req)))
      && (FirstTaken(w.files, req, first) ==>
            && o == Halt(w.(files := WithTemps(w.files, req, 0, first)), Conflict)
            && (o.world.files == w.files <==> first == 0))
  {
    if Clean(w.files, Plan(req)) {
      InstallEnds(h, w, req);
      assert forall i :: 0 <= i < |req.destinations| ==> Plan(req)[i] == MakeTarget(req, i);
    } else {
      var i :| 0 <= i < |Plan(req)| && (Plan(req)[i].temp in w.files || Plan(req)[i].backup in w.files);
      assert Plan(req)[i] == MakeTarget(req, i);
      var k := FirstTakenBelow(w.files, req, i);
      RefusedAt(h, w, req, k);
      if FirstTaken(w.files, req, first) {
        assert first == k;
        if first > 0 {
          assert !SlotTaken(w.files, req, 0);
          var t := MakeTarget(req, 0);
          WithTempsKeeps(w.files[t.temp := PackageTree(req.package)], req, 1, first, t.temp);
        }
      }
    }
    hide Install;
    hide ReusableId;
  }

  lemma {:induction false} FirstTakenBelow(files: Files, req: Request, i: nat) returns (first: nat)
    requires i < |req.destinations| && SlotTaken(files, req, i)
    ensures FirstTaken(files, req, first)
    decreases i
  {
    if k: nat :| k < i && SlotTaken(files, req, k) {
      first := FirstTakenBelow(files, req, k);
    } else {
      first := i;
    }
  }

  lemma RefusedAt(h: Hash, w: World, req: Request, first: nat)
    requires w.script == [] && !w.locked && 0 < |req.destinations| <= MAX_TARGETS
    requires Distinct(req.destinations) && ReusableId(h, w, req) && FirstTaken(w.files, req, first)
    ensures Install(h, w, req) == Halt(w.(files := WithTemps(w.files, req, 0, first)), Conflict)
  {
    var locked := Lock(w).world;
    EarlierReceiptDecides(h, locked, req);
    StagingStops(locked, req, [], first);
    hide InstallLocked;
    hide StageFrom;
    hide FirstTaken;
    hide Distinct;
  }

  // ----- what a single step can leave for good

  /** One free destination, and nothing of an earlier call. */
  ghost predicate FreshAlone(h: Hash, w: World, req: Request) {
    && Proper(req) && Startable(h, w, req) && |req.destinations| == 1 && req.operation !in w.receipts
  }

  lemma FreshAloneInstall(h: Hash, w: World, req: Request)
    requires FreshAlone(h, w, req) && Peek(w).Done?
    ensures var t := MakeTarget(req, 0);
      && t.temp !in w.files && t.backup !in w.files
      && Install(h, w, req) == Unlock(InstallFresh(h, Lock(w).world, req))
  {
    assert Plan(req)[0] == MakeTarget(req, 0);
    hide InstallFresh;
  }

  /** A copy that dies half-way leaves its temp, which no receipt names: there is nothing to roll back. */
  lemma CopyThatDies(h: Hash, w: World, req: Request, half: Tree)
    requires FreshAlone(h, w, req)
    ensures var o := Install(h, w.(script := [Done, Dies(Some(half), false)]), req);
      && o.Halt? && o.why == Crash && o.world.receipts == w.receipts
      && At(o.world.files, MakeTarget(req, 0).temp) == Some(half)
      && Rollback(h, o.world, req.operation) == Halt(o.world, NotFound)
  {
    var start := w.(script := [Done, Dies(Some(half), false)]);
    assert FreshAlone(h, start, req) by { hide ReusableId; }
    FreshAloneInstall(h, start, req);
    hide Install;
    hide FreshAlone;
    var t := MakeTarget(req, 0);
    var locked := Lock(start).world;
    assert locked.script == [Dies(Some(half), false)];
    var copied := CopyPackage(locked, t.temp, req.package);
    assert copied.Halt? && copied.why == Crash && At(copied.world.files, t.temp) == Some(half);
    assert StageFrom(locked, req, []).0 == copied;
  }

  /** A first receipt that fails, or dies, with its file half-written: from then on no reconcile gets through. */
  lemma FirstReceiptLeavesFile(h: Hash, w: World, req: Request, dies: bool, calls: seq<Call>, listing: seq<string>)
    requires FreshAlone(h, w, req)
    ensures var event := if dies then Dies(None, true) else Fails(None, true);
      var o := Install(h, w.(script := [Done, Done, event]), req);
      var last := Run(h, o.world, calls);
      && o.Halt? && o.world.receipts == w.receipts && o.world.strays == w.strays + 1
      && Reconcile(h, last, listing) == Halt(last, Corrupt)
  {
    var event := if dies then Dies(None, true) else Fails(None, true);
    var start := w.(script := [Done, Done, event]);
    assert FreshAlone(h, start, req) by { hide ReusableId; }
    FreshAloneInstall(h, start, req);
    hide Install;
    hide FreshAlone;
    hide Run;
    var t := MakeTarget(req, 0);
    var locked := Lock(start).world;
    assert locked.script == [Done, event];
    StagesAlone(locked, req);
    var staged := StageFrom(locked, req, []).0.world;
    assert staged.script == [event];
    hide StageFrom;
    var noted := WriteReceipt(staged, NewReceipt(h, req, [t]));
    assert noted.Halt? && noted.world.script == [] && noted.world.strays == w.strays + 1;
    RemoveQuietlyTries(noted.world, t.temp);
    assert [t][1..] == [];
    assert RemoveTemps(noted.world, [t]) == RemoveQuietly(noted.world, t.temp);
    assert RemoveQuietly(noted.world, t.temp).world.strays == noted.world.strays;
    assert InstallStaged(h, staged, req, [t]) == DropTemps(noted, [t]);
    StraysBlockReconcile(h, Install(h, start, req).world, calls, listing);
  }

  // ----- a lock that nobody holds

  /** As long as nobody clears such a lock, no install, rollback or reconcile changes anything. */
  lemma {:induction false} LockedForEver(h: Hash, w: World, calls: seq<Call>)
    requires w.locked
    requires forall i :: 0 <= i < |calls| ==> calls[i].InstallCall? || calls[i].RollbackCall? || calls[i].ReconcileCall?
    ensures Run(h, w, calls) == w
    decreases |calls|
  {
    if calls != [] {
      LockedCall(h, w, calls[0]);
      hide Perform;
      assert forall i :: 0 <= i < |calls[1..]| ==> calls[1..][i] == calls[i + 1];
      LockedForEver(h, w, calls[1..]);
    }
  }

  lemma LockedCall(h: Hash, w: World, call: Call)
    requires w.locked && (call.InstallCall? || call.RollbackCall? || call.ReconcileCall?)
    ensures Perform(h, w, call) == w
  {
    hide InstallLocked;
    hide RollbackLocked;
    if call.ReconcileCall? { LockedReconcile(h, w, call.listing); }
    hide ReconcileFrom;
  }

  lemma {:induction false} LockedReconcile(h: Hash, w: World, listing: seq<string>)
    requires w.locked
    ensures ReconcileFrom(h, w, listing).world == w
    decreases |listing|
  {
    hide RollbackLocked;
    hide ValidReceipt;
    if listing != [] { LockedReconcile(h, w, listing[1..]); }
  }
}
