/** Main results on install, crash and recovery. */
module InstallRecovery {
  import opened InstallModel
  import opened RestoreProofs
  import opened SwapProofs
  import opened InstallTheorems
  import opened InstallReceipts

  /** A crash that no earlier failure preceded can always be undone completely. */
  lemma CrashedIsReady(h: Hash, w: World, req: Request, o: Outcome)
    requires Proper(req) && CrashOnly(w.script) && Recorded(h, w, req, o) && o.Halt?
    ensures Undoable(o.world, req.operation, w.files)
    ensures o.why == Crash && o.world.receipts[req.operation].status == Started
    ensures var d := o.world.receipts[req.operation];
      AllAcceptable(h, o.world.files, d) && AllReady(h, w.files, o.world.files, d.targets, |d.targets|, true, d.digest)
  {
    var d := o.world.receipts[req.operation];
    assert CleanCrash(PlanReceipt(h, req), o, req.package, w.files);
    InFlightIsReady(h, w.files, o.world.files, d.targets, req.package);
    hide AllInFlight;
    hide AllRecoverable;
    hide AllReady;
    RecordedIsUndoable(h, w, req, o);
  }

  /**
   Crash atomicity, for any number of targets: an install that runs to its end has committed and holds the package
   everywhere; one that dies from the first receipt write on is undone exactly by the next fault-free rollback.
   */
  lemma CrashAtomicity(h: Hash, w: World, req: Request)
    requires Proper(req) && CrashOnly(w.script)
    ensures var o := Install(h, w, req);
      || Unrecorded(h, w, req, o)
      || (&& o.Go? && req.operation in o.world.receipts && o.world.receipts[req.operation].status == Committed
          && Installed(w.files, o.world.files, o.world.receipts[req.operation].targets, PackageTree(req.package)))
      || (&& o.Halt? && o.why == Crash && req.operation in o.world.receipts
          && var undone := Rollback(h, Reboot(o.world, []), req.operation);
          && undone.Go? && undone.world.files == w.files
          && undone.world.receipts == o.world.receipts[req.operation := Closed(o.world.receipts[req.operation])])
  {
    InstallEnds(h, w, req);
    var o := Install(h, w, req);
    hide Install;
    hide Installed;
    if !Unrecorded(h, w, req, o) && o.Halt? {
      CrashedIsReady(h, w, req, o);
      hide Recorded;
      hide AllAcceptable;
      RollbackFromReady(h, Reboot(o.world, []), req.operation, w.files);
      hide Rollback;
    }
    hide Unrecorded;
    hide CleanCrash;
    hide AllRecoverable;
  }

  /** Receipts of the listing other than the one of `operation` are valid and settled. */
  ghost predicate OthersSettled(w: World, operation: string, listing: seq<string>) {
    forall i :: 0 <= i < |listing| && listing[i] != operation ==>
      && listing[i] in w.receipts && ValidReceipt(w.receipts[listing[i]], listing[i])
      && w.receipts[listing[i]].status != Started
  }

  lemma {:induction false} SettledListing(h: Hash, w: World, operation: string, listing: seq<string>)
    requires OthersSettled(w, operation, listing)
    requires operation in w.receipts && ValidReceipt(w.receipts[operation], operation)
    requires w.receipts[operation].status != Started || operation !in listing
    ensures ReconcileFrom(h, w, listing) == Go(w)
    decreases |listing|
  {
    if listing != [] {
      assert listing[0] in listing;
      assert forall s :: s in listing[1..] ==> s in listing;
      SettledListing(h, w, operation, listing[1..]);
    }
  }

  lemma RollbackCloses(h: Hash, w: World, operation: string)
    requires operation in w.receipts && w.receipts[operation].operation == operation
    ensures var o := Rollback(h, w, operation);
      o.Go? && w.receipts[operation].status != Aborted ==>
        o.world.receipts == w.receipts[operation := Closed(w.receipts[operation])]
  {
    var r := w.receipts[operation];
    RestoreDownReceipts(h, Lock(w).world, r.targets, |r.targets|, true, r.digest);
    hide RestoreDown;
    hide AllAcceptable;
  }

  /** Reconcile acts on the one started receipt, as an explicit rollback would, refused or not. */
  lemma {:induction false} ReconcileIsRollback(h: Hash, w: World, operation: string, listing: seq<string>)
    requires OthersSettled(w, operation, listing) && operation in listing
    requires operation in w.receipts && ValidReceipt(w.receipts[operation], operation)
    requires w.receipts[operation].status == Started
    ensures ReconcileFrom(h, w, listing) == Rollback(h, w, operation)
    decreases |listing|
  {
    hide Rollback;
    var rest := listing[1..];
    if listing[0] == operation {
      RollbackCloses(h, w, operation);
      var o := Rollback(h, w, operation);
      assert forall i :: 0 <= i < |rest| ==> rest[i] == listing[i + 1];
      ClosedStaysValid(w.receipts[operation]);
      if o.Go? { SettledListing(h, o.world, operation, rest); }
    } else {
      assert forall i :: 0 <= i < |rest| ==> rest[i] == listing[i + 1];
      ReconcileIsRollback(h, w, operation, rest);
    }
  }

  // ----- crashes inside recovery

  /** Every tree that stood at a destination before is still there or in its backup. */
  ghost predicate OriginalsSurvive(orig: Files, files: Files, targets: seq<Target>) {
    forall i :: 0 <= i < |targets| && Was(orig, targets[i]).Some? ==>
      At(files, targets[i].destination) == Was(orig, targets[i])
        || At(files, targets[i].backup) == Was(orig, targets[i])
  }

  lemma UndoableSurvives(w: World, operation: string, orig: Files)
    requires Undoable(w, operation, orig)
    ensures OriginalsSurvive(orig, w.files, w.receipts[operation].targets)
  {
    var targets := w.receipts[operation].targets;
    forall i | 0 <= i < |targets| && Was(orig, targets[i]).Some?
      ensures At(w.files, targets[i].destination) == Was(orig, targets[i])
        || At(w.files, targets[i].backup) == Was(orig, targets[i])
    {
      assert Recoverable(w.files, targets[i], Was(orig, targets[i]));
    }
  }

  /**
   Whatever stopped the install and however often recovery is interrupted: no original tree is lost, and the next
   fault-free attempt completes exactly if every target is acceptable, and otherwise refuses before changing a file.
   */
  lemma InterruptedRecovery(h: Hash, w: World, operation: string, orig: Files, scripts: seq<seq<Event>>)
    requires Undoable(w, operation, orig) && OriginalsDiffer(h, orig, w.receipts[operation])
    ensures var last := Reruns(h, w, operation, scripts);
      && operation in last.receipts
      && OriginalsSurvive(orig, last.files, w.receipts[operation].targets)
      && if last.receipts[operation].status == Aborted then last.files == orig
         else
           var next := Rollback(h, Reboot(last, []), operation);
           if AllAcceptable(h, last.files, last.receipts[operation]) then next.Go? && next.world.files == orig
           else next.Halt? && next.why == Conflict && next.world.files == last.files
  {
    RerunsKeepUndoable(h, w, operation, orig, scripts);
    var last := Reruns(h, w, operation, scripts);
    hide Reruns;
    if last.receipts[operation].status != Aborted {
      var r := last.receipts[operation];
      UndoableSurvives(last, operation, orig);
      var again := Reboot(last, []);
      if AllAcceptable(h, last.files, r) {
        AcceptableIsReady(h, orig, last.files, r);
        hide AllAcceptable;
        hide AllReady;
        hide AllRecoverable;
        RollbackFromReady(h, again, operation, orig);
        hide Rollback;
      }
    }
  }

  /** The same for what an install leaves behind, whatever its script. */
  lemma InstallThenInterruptedRecovery(h: Hash, w: World, req: Request, scripts: seq<seq<Event>>)
    requires Proper(req) && OriginalsDiffer(h, w.files, PlanReceipt(h, req))
    ensures var o := Install(h, w, req);
      Unrecorded(h, w, req, o) || OriginalsSurvive(w.files, Reruns(h, o.world, req.operation, scripts).files, Plan(req))
  {
    InstallEnds(h, w, req);
    var o := Install(h, w, req);
    hide Install;
    if Recorded(h, w, req, o) {
      var d := o.world.receipts[req.operation];
      if d.status == Aborted {
        RerunsOfAborted(h, o.world, req.operation, scripts);
      } else {
        RecordedIsUndoable(h, w, req, o);
        forall i | 0 <= i < |Plan(req)|
          ensures d.targets[i].destination == Plan(req)[i].destination && d.targets[i].backup == Plan(req)[i].backup
        {
        }
        hide CleanCrash;
        hide AllRecoverable;
        assert OriginalsDiffer(h, w.files, d);
        hide OriginalsDiffer;
        InterruptedRecovery(h, o.world, req.operation, w.files, scripts);
        hide Reruns;
        hide Recorded;
      }
    }
  }
}
