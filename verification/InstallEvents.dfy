/** How the calls meet their events: in order, none after a fatal one, and what that means for lock and leftovers. */
module InstallEvents {
  import opened InstallModel
  import opened InstallReceipts

  ghost predicate Died(o: Outcome) {
    o.Halt? && o.why == Crash
  }

  /** The first n events were met; the last of them was fatal if and only if the process died, no other one was. */
  ghost predicate Met(w: World, o: Outcome, n: nat) {
    && n <= |w.script| && o.world.script == w.script[n..] && o.world.strays >= w.strays
    && (Died(o) ==> n > 0 && w.script[n - 1].Dies?)
    && forall i :: 0 <= i < n && !(i == n - 1 && Died(o)) ==> !w.script[i].Dies?
  }

  ghost predicate Meets(w: World, o: Outcome) {
    exists n: nat :: Met(w, o, n)
  }

  /** The same inside the lock. */
  ghost predicate Steps(w: World, o: Outcome) {
    Meets(w, o) && o.world.locked == w.locked
  }

  lemma MeetsNothing(w: World, o: Outcome)
    requires !Died(o) && o.world.script == w.script && o.world.strays >= w.strays
    ensures Meets(w, o)
  {
    assert Met(w, o, 0);
  }

  lemma MeetsOne(w: World, o: Outcome)
    requires o.world.script == Tick(w).script && o.world.strays >= w.strays && (Died(o) <==> Peek(w).Dies?)
    ensures Meets(w, o)
  {
    if w.script == [] { MeetsNothing(w, o); } else { assert Met(w, o, 1); }
  }

  lemma MeetsMore(w: World, o: Outcome, q: Outcome)
    requires Meets(w, o) && !Died(o) && Meets(o.world, q)
    ensures Meets(w, q)
  {
    var n: nat :| Met(w, o, n);
    var m: nat :| Met(o.world, q, m);
    assert forall i :: 0 <= i < m ==> w.script[n..][i] == w.script[n + i];
    assert Met(w, q, n + m) by {
      assert w.script[n..][m..] == w.script[n + m..];
      forall i | 0 <= i < n + m && !(i == n + m - 1 && Died(q)) ensures !w.script[i].Dies? {
        if i >= n { assert w.script[i] == o.world.script[i - n]; }
      }
    }
  }

  lemma StepsMore(w: World, o: Outcome, q: Outcome)
    requires Steps(w, o) && !Died(o) && Steps(o.world, q)
    ensures Steps(w, q)
  {
    MeetsMore(w, o, q);
    hide Meets;
  }

  /** What is reported, as long as it is not a death, makes no difference. */
  lemma StepsAlike(w: World, o: Outcome, q: Outcome)
    requires Steps(w, o) && q.world == o.world && !Died(o) && !Died(q)
    ensures Steps(w, q)
  {
    var n: nat :| Met(w, o, n);
    assert Met(w, q, n);
  }

  lemma StepsNot(w: World, o: Outcome)
    requires o.world == w && !Died(o)
    ensures Steps(w, o)
  {
    MeetsNothing(w, o);
  }

  // ----- single steps

  lemma RenameSteps(w: World, source: Path, target: Path)
    ensures Steps(w, Rename(w, source, target))
  {
    MeetsOne(w, Rename(w, source, target));
    hide Meets;
  }

  lemma RemoveSteps(w: World, p: Path)
    ensures Steps(w, RemoveIfPresent(w, p))
  {
    if p in w.files { MeetsOne(w, RemoveIfPresent(w, p)); } else { MeetsNothing(w, Go(w)); }
    hide Meets;
  }

  lemma CopySteps(w: World, p: Path, package: seq<FrozenDigest.FrozenFile>)
    ensures Steps(w, CopyPackage(w, p, package))
  {
    MeetsOne(w, CopyPackage(w, p, package));
    hide Meets;
  }

  lemma WriteSteps(w: World, r: Receipt)
    ensures Steps(w, WriteReceipt(w, r))
  {
    MeetsOne(w, WriteReceipt(w, r));
    hide Meets;
  }

  // ----- restoring

  lemma PutBackSteps(w: World, t: Target)
    ensures Steps(w, PutBack(w, t))
  {
    hide Steps;
    hide Rename;
    hide RemoveIfPresent;
    RemoveSteps(w, t.destination);
    var cleared := RemoveIfPresent(w, t.destination);
    if cleared.Go? {
      RenameSteps(cleared.world, t.backup, t.destination);
      if t.backup in cleared.world.files {
        StepsMore(w, cleared, Rename(cleared.world, t.backup, t.destination));
      }
    }
  }

  lemma RestoreTargetSteps(h: Hash, w: World, t: Target, lenient: bool, digest: string)
    ensures Steps(w, RestoreTarget(h, w, t, lenient, digest))
  {
    hide Steps;
    hide Rename;
    hide RemoveIfPresent;
    hide PutBack;
    hide HasDigest;
    var back := BringBack(h, w, t, lenient, digest);
    RenameSteps(w, t.backup, t.destination);
    PutBackSteps(w, t);
    StepsNot(w, Go(w));
    StepsNot(w, Halt(w, Conflict));
    assert Steps(w, back);
    hide BringBack;
    if back.Go? {
      RemoveSteps(back.world, t.temp);
      StepsMore(w, back, RemoveIfPresent(back.world, t.temp));
    }
  }

  lemma {:induction false} RestoreDownSteps(h: Hash, w: World, targets: seq<Target>, n: nat, lenient: bool,
      digest: string)
    requires n <= |targets|
    ensures Steps(w, RestoreDown(h, w, targets, n, lenient, digest))
    decreases n
  {
    hide Steps;
    hide RestoreTarget;
    if n == 0 {
      StepsNot(w, Go(w));
    } else {
      var o := RestoreTarget(h, w, targets[n - 1], lenient, digest);
      RestoreTargetSteps(h, w, targets[n - 1], lenient, digest);
      if o.Go? {
        RestoreDownSteps(h, o.world, targets, n - 1, lenient, digest);
        StepsMore(w, o, RestoreDown(h, o.world, targets, n - 1, lenient, digest));
      }
    }
  }

  // ----- staging

  lemma {:induction false} RemoveTempsSteps(w: World, targets: seq<Target>)
    ensures Steps(w, RemoveTemps(w, targets))
    ensures RemoveTemps(w, targets).Halt? ==> RemoveTemps(w, targets).why == Crash
    decreases |targets|
  {
    hide Steps;
    hide RemoveIfPresent;
    if targets == [] {
      StepsNot(w, Go(w));
    } else {
      var tried, o := RemoveIfPresent(w, targets[0].temp), RemoveQuietly(w, targets[0].temp);
      RemoveSteps(w, targets[0].temp);
      if o.Go? {
        StepsAlike(w, tried, o);
        RemoveTempsSteps(o.world, targets[1..]);
        StepsMore(w, o, RemoveTemps(o.world, targets[1..]));
      }
    }
  }

  lemma DropTempsSteps(w: World, o: Outcome, targets: seq<Target>)
    requires o.Halt? && Steps(w, o)
    ensures Steps(w, DropTemps(o, targets))
  {
    hide Steps;
    if o.why != Crash {
      RemoveTempsSteps(o.world, targets);
      var cleaned := RemoveTemps(o.world, targets);
      hide RemoveTemps;
      StepsMore(w, o, cleaned);
      if cleaned.Go? { StepsAlike(w, cleaned, Halt(cleaned.world, o.why)); }
    }
  }

  lemma {:induction false} StageSteps(w: World, req: Request, staged: seq<Target>)
    requires |staged| <= |req.destinations|
    ensures Steps(w, StageFrom(w, req, staged).0)
    decreases |req.destinations| - |staged|
  {
    hide Steps;
    hide CopyPackage;
    hide DropTemps;
    StepsNot(w, Go(w));
    StepsNot(w, Halt(w, Conflict));
    if |staged| < |req.destinations| {
      var t := MakeTarget(req, |staged|);
      var copied := CopyPackage(w, t.temp, req.package);
      CopySteps(w, t.temp, req.package);
      if copied.Halt? {
        DropTempsSteps(w, copied, staged + [t]);
      } else {
        StageSteps(copied.world, req, staged + [t]);
        StepsMore(w, copied, StageFrom(copied.world, req, staged + [t]).0);
      }
    }
  }

  // ----- swapping

  lemma SwapTargetSteps(w: World, r: Receipt, i: nat)
    requires i < |r.targets|
    ensures Steps(w, SwapTarget(w, r, i).0)
  {
    hide Steps;
    hide Rename;
    hide WriteReceipt;
    var t := r.targets[i];
    StepsNot(w, Go(w));
    RenameSteps(w, t.destination, t.backup);
    var saved := if t.destination in w.files then Rename(w, t.destination, t.backup) else Go(w);
    if saved.Go? {
      var backedUp := SetPhase(r, i, BackedUp);
      var noted := WriteReceipt(saved.world, backedUp);
      WriteSteps(saved.world, backedUp);
      StepsMore(w, saved, noted);
      if noted.Go? {
        var moved := Rename(noted.world, t.temp, t.destination);
        RenameSteps(noted.world, t.temp, t.destination);
        StepsMore(w, noted, moved);
        if moved.Go? {
          WriteSteps(moved.world, SetPhase(backedUp, i, Swapped));
          StepsMore(w, moved, WriteReceipt(moved.world, SetPhase(backedUp, i, Swapped)));
        }
      }
    }
  }

  lemma {:induction false} SwapFromSteps(w: World, r: Receipt, i: nat)
    requires i <= |r.targets|
    ensures Steps(w, SwapFrom(w, r, i).0)
    decreases |r.targets| - i
  {
    hide Steps;
    hide SwapTarget;
    StepsNot(w, Go(w));
    if i < |r.targets| {
      var (o, live) := SwapTarget(w, r, i);
      SwapTargetSteps(w, r, i);
      if o.Go? {
        SwapTargetCount(w, r, i);
        SwapFromSteps(o.world, live, i + 1);
        StepsMore(w, o, SwapFrom(o.world, live, i + 1).0);
      }
    }
  }

  lemma SwapTargetCount(w: World, r: Receipt, i: nat)
    requires i < |r.targets|
    ensures |SwapTarget(w, r, i).1.targets| == |r.targets|
  {
    hide Rename;
    hide WriteReceipt;
  }

  lemma AbortSteps(h: Hash, w: World, live: Receipt, cause: Error)
    requires cause != Crash
    ensures Steps(w, AbortInstall(h, w, live, cause))
  {
    hide Steps;
    var restored := RestoreDown(h, w, live.targets, |live.targets|, false, live.digest);
    RestoreDownSteps(h, w, live.targets, |live.targets|, false, live.digest);
    hide RestoreDown;
    if restored.Go? {
      var written := WriteReceipt(restored.world, Closed(live));
      WriteSteps(restored.world, Closed(live));
      hide WriteReceipt;
      StepsMore(w, restored, written);
      if written.Go? { StepsAlike(w, written, Halt(written.world, cause)); }
    }
  }

  lemma SwapAllSteps(h: Hash, w: World, r: Receipt)
    ensures Steps(w, SwapAll(h, w, r))
  {
    hide Steps;
    var (o, live) := SwapFrom(w, r, 0);
    SwapFromSteps(w, r, 0);
    hide SwapFrom;
    if o.Go? {
      WriteSteps(o.world, live.(status := Committed));
      hide WriteReceipt;
      StepsMore(w, o, WriteReceipt(o.world, live.(status := Committed)));
    } else if o.why != Crash {
      AbortSteps(h, o.world, live, o.why);
      hide AbortInstall;
      StepsMore(w, o, AbortInstall(h, o.world, live, o.why));
    }
  }

  lemma InstallStagedSteps(h: Hash, w: World, req: Request, targets: seq<Target>)
    requires |targets| == |req.destinations|
    ensures Steps(w, InstallStaged(h, w, req, targets))
  {
    hide Steps;
    hide SwapAll;
    hide DropTemps;
    var r := NewReceipt(h, req, targets);
    var noted := WriteReceipt(w, r);
    WriteSteps(w, r);
    hide WriteReceipt;
    if noted.Halt? {
      DropTempsSteps(w, noted, targets);
    } else {
      SwapAllSteps(h, noted.world, r);
      StepsMore(w, noted, SwapAll(h, noted.world, r));
    }
  }

  lemma InstallLockedSteps(h: Hash, w: World, req: Request)
    ensures Steps(w, InstallLocked(h, w, req))
  {
    hide Steps;
    hide InstallStaged;
    hide ValidReceipt;
    hide PackageDigest;
    hide Retryable;
    hide Distinct;
    StepsNot(w, Go(w));
    StepsNot(w, Halt(w, Corrupt));
    StepsNot(w, Halt(w, Conflict));
    StepsNot(w, Halt(w, UnsafePath));
    var (o, targets) := StageFrom(w, req, []);
    StageSteps(w, req, []);
    hide StageFrom;
    if o.Go? {
      InstallStagedSteps(h, o.world, req, targets);
      StepsMore(w, o, InstallStaged(h, o.world, req, targets));
    }
    assert Steps(w, InstallFresh(h, w, req));
    hide InstallFresh;
  }

  lemma RollbackLockedSteps(h: Hash, w: World, r: Receipt)
    ensures Steps(w, RollbackLocked(h, w, r))
  {
    hide Steps;
    hide AllAcceptable;
    StepsNot(w, Go(w));
    StepsNot(w, Halt(w, Conflict));
    var restored := RestoreDown(h, w, r.targets, |r.targets|, true, r.digest);
    RestoreDownSteps(h, w, r.targets, |r.targets|, true, r.digest);
    hide RestoreDown;
    if restored.Go? {
      WriteSteps(restored.world, Closed(r));
      hide WriteReceipt;
      StepsMore(w, restored, WriteReceipt(restored.world, Closed(r)));
    }
  }

  // ----- whole calls

  /** After any call the lock is held if it was before, if its owner file failed, or if the process died holding it. */
  ghost predicate LockKept(w: World, o: Outcome) {
    o.world.locked <==> w.locked || if Peek(w).Done? then Died(o) else Peek(w).stray
  }

  lemma InsideLock(w: World, o: Outcome)
    requires Lock(w).Go? && Steps(Lock(w).world, o)
    ensures Meets(w, Unlock(o)) && LockKept(w, Unlock(o))
  {
    var locked := Lock(w);
    MeetsOne(w, locked);
    MeetsMore(w, locked, o);
    var n: nat :| Met(w, o, n);
    assert Met(w, Unlock(o), n);
  }

  lemma NotLocked(w: World)
    requires Lock(w).Halt?
    ensures Meets(w, Lock(w)) && LockKept(w, Lock(w))
  {
    if w.locked { MeetsNothing(w, Lock(w)); } else { MeetsOne(w, Lock(w)); }
    hide Meets;
  }

  /** An install meets its events in order, and the process is dead exactly if the last one it met was fatal. */
  lemma InstallMeets(h: Hash, w: World, req: Request)
    ensures var o := Install(h, w, req);
      Meets(w, o) && (0 < |req.destinations| <= MAX_TARGETS ==> LockKept(w, o))
  {
    hide InstallLocked;
    if !(0 < |req.destinations| <= MAX_TARGETS) {
      MeetsNothing(w, Halt(w, InvalidManifest));
    } else if Lock(w).Go? {
      InstallLockedSteps(h, Lock(w).world, req);
      InsideLock(w, InstallLocked(h, Lock(w).world, req));
    } else {
      NotLocked(w);
    }
    hide Meets;
    hide LockKept;
    hide Lock;
  }

  lemma RollbackMeets(h: Hash, w: World, operation: string)
    ensures var o := Rollback(h, w, operation);
      && Meets(w, o)
      && (operation in w.receipts && w.receipts[operation].operation == operation ==> LockKept(w, o))
  {
    hide RollbackLocked;
    if operation !in w.receipts {
      MeetsNothing(w, Halt(w, NotFound));
    } else if w.receipts[operation].operation != operation {
      MeetsNothing(w, Halt(w, Corrupt));
    } else if Lock(w).Go? {
      RollbackLockedSteps(h, Lock(w).world, w.receipts[operation]);
      InsideLock(w, RollbackLocked(h, Lock(w).world, w.receipts[operation]));
    } else {
      NotLocked(w);
    }
    hide Meets;
    hide LockKept;
    hide Lock;
  }

  lemma {:induction false} ScanMeets(h: Hash, w: World, listing: seq<string>)
    ensures Meets(w, ReconcileFrom(h, w, listing))
    decreases |listing|
  {
    hide Rollback;
    hide ValidReceipt;
    MeetsNothing(w, Go(w));
    MeetsNothing(w, Halt(w, Corrupt));
    hide Meets;
    if listing != [] {
      var o := Rollback(h, w, listing[0]);
      RollbackMeets(h, w, listing[0]);
      ScanMeets(h, w, listing[1..]);
      if o.Go? {
        ScanMeets(h, o.world, listing[1..]);
        MeetsMore(w, o, ReconcileFrom(h, o.world, listing[1..]));
      }
    }
  }

  lemma ReconcileMeets(h: Hash, w: World, listing: seq<string>)
    ensures Meets(w, Reconcile(h, w, listing))
  {
    ScanMeets(h, w, listing);
    MeetsNothing(w, Halt(w, Corrupt));
    hide ReconcileFrom;
    hide Meets;
  }

  // ----- unfinished receipt files

  lemma MeetsKeepsStrays(w: World, o: Outcome)
    requires Meets(w, o)
    ensures o.world.strays >= w.strays
  {
  }

  /** Once an unfinished receipt file is there, no run of calls, restarts and edits gets a reconcile through. */
  lemma {:induction false} StraysBlockReconcile(h: Hash, w: World, calls: seq<Call>, listing: seq<string>)
    requires w.strays > 0
    ensures var last := Run(h, w, calls); Reconcile(h, last, listing) == Halt(last, Corrupt)
    decreases |calls|
  {
    if calls != [] {
      match calls[0] {
        case InstallCall(req) =>
          InstallMeets(h, w, req);
          MeetsKeepsStrays(w, Install(h, w, req));
        case RollbackCall(operation) =>
          RollbackMeets(h, w, operation);
          MeetsKeepsStrays(w, Rollback(h, w, operation));
        case ReconcileCall(names) =>
          ReconcileMeets(h, w, names);
          MeetsKeepsStrays(w, Reconcile(h, w, names));
        case Restart(_) =>
        case Edit(_) =>
      }
      hide Install;
      hide Rollback;
      hide Reconcile;
      StraysBlockReconcile(h, Perform(h, w, calls[0]), calls[1..], listing);
    }
  }
}
