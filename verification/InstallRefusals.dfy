/** What rollback and the in-process undo may delete and when they refuse, in worlds edited from outside. */
module InstallRefusals {
  import opened InstallModel
  import opened RestoreProofs

  // ----- verified deletion

  /** A temp of the transaction, or a destination whose tree hashes to the digest in the receipt. */
  ghost predicate JustifiedFor(h: Hash, d: Deletion, t: Target, digest: string) {
    || d.path == t.temp
    || (d.path == t.destination && d.tree.Directory? && h(FrozenDigest.Framed(d.tree.files)) == digest)
  }

  ghost predicate Justified(h: Hash, d: Deletion, targets: seq<Target>, digest: string) {
    exists i :: 0 <= i < |targets| && JustifiedFor(h, d, targets[i], digest)
  }

  /** The deletions begun between two worlds, all justified. */
  ghost predicate JustifiedSince(h: Hash, w: World, w': World, targets: seq<Target>, digest: string) {
    && w.deleted <= w'.deleted
    && forall k :: |w.deleted| <= k < |w'.deleted| ==> Justified(h, w'.deleted[k], targets, digest)
  }

  /** What the checked pass has established before the lenient pass deletes. */
  ghost predicate Vetted(h: Hash, files: Files, t: Target, lenient: bool, digest: string) {
    lenient && t.phase == BackedUp && t.destination in files ==> HasDigest(h, files[t.destination], digest)
  }

  ghost predicate JustifiedForSince(h: Hash, w: World, w': World, t: Target, digest: string) {
    && w.deleted <= w'.deleted
    && forall k :: |w.deleted| <= k < |w'.deleted| ==> JustifiedFor(h, w'.deleted[k], t, digest)
  }

  lemma RemoveLogs(w: World, p: Path)
    ensures RemoveIfPresent(w, p).world.deleted == w.deleted + if p in w.files then [Deletion(p, w.files[p])] else []
  {
  }

  lemma BringBackDeletes(h: Hash, w: World, t: Target, lenient: bool, digest: string)
    requires Vetted(h, w.files, t, lenient, digest)
    ensures JustifiedForSince(h, w, BringBack(h, w, t, lenient, digest).world, t, digest)
  {
    RemoveLogs(w, t.destination);
    var cleared := RemoveIfPresent(w, t.destination).world;
    assert forall v: World :: Rename(v, t.backup, t.destination).world.deleted == v.deleted;
    hide RemoveIfPresent;
    hide Rename;
  }

  lemma RestoreTargetDeletes(h: Hash, w: World, t: Target, lenient: bool, digest: string)
    requires Vetted(h, w.files, t, lenient, digest)
    ensures JustifiedForSince(h, w, RestoreTarget(h, w, t, lenient, digest).world, t, digest)
  {
    var back := BringBack(h, w, t, lenient, digest);
    BringBackDeletes(h, w, t, lenient, digest);
    RemoveLogs(back.world, t.temp);
    hide BringBack;
    hide RemoveIfPresent;
  }

  lemma RestoreTargetTouches(h: Hash, w: World, t: Target, lenient: bool, digest: string)
    ensures SameExcept(w.files, RestoreTarget(h, w, t, lenient, digest).world.files, Slots(t))
  {
    RenameStep(w, t.backup, t.destination);
    RemoveStep(w, t.destination);
    RenameStep(RemoveIfPresent(w, t.destination).world, t.backup, t.destination);
    var back := BringBack(h, w, t, lenient, digest);
    RemoveStep(back.world, t.temp);
    hide Rename;
    hide RemoveIfPresent;
  }

  lemma {:induction false} RestoreDownDeletes(h: Hash, w: World, targets: seq<Target>, n: nat, lenient: bool,
      digest: string)
    requires Apart(targets) && n <= |targets|
    requires forall i :: 0 <= i < n ==> Vetted(h, w.files, targets[i], lenient, digest)
    ensures JustifiedSince(h, w, RestoreDown(h, w, targets, n, lenient, digest).world, targets, digest)
    decreases n
  {
    if n > 0 {
      var t := targets[n - 1];
      var o := RestoreTarget(h, w, t, lenient, digest);
      RestoreTargetDeletes(h, w, t, lenient, digest);
      RestoreTargetTouches(h, w, t, lenient, digest);
      hide RestoreTarget;
      assert JustifiedSince(h, w, o.world, targets, digest);
      if o.Go? {
        forall i | 0 <= i < n - 1 ensures Vetted(h, o.world.files, targets[i], lenient, digest) {
          assert Slots(targets[i]) !! Slots(t);
          assert At(w.files, targets[i].destination) == At(o.world.files, targets[i].destination);
        }
        RestoreDownDeletes(h, o.world, targets, n - 1, lenient, digest);
      }
    }
  }

  /**
   Whatever was edited from outside: a rollback deletes only temps and destinations that hash to the receipt's digest.
   */
  lemma RollbackDeletesOnlyVerified(h: Hash, w: World, operation: string)
    requires operation in w.receipts && Apart(w.receipts[operation].targets)
    ensures var r := w.receipts[operation];
      JustifiedSince(h, w, Rollback(h, w, operation).world, r.targets, r.digest)
  {
    if Lock(w).Go? {
      RollbackLockedDeletes(h, Lock(w).world, w.receipts[operation]);
    }
    hide RollbackLocked;
    hide Justified;
  }

  lemma RollbackLockedDeletes(h: Hash, w: World, r: Receipt)
    requires Apart(r.targets)
    ensures JustifiedSince(h, w, RollbackLocked(h, w, r).world, r.targets, r.digest)
  {
    hide RestoreDown;
    hide Justified;
    if AllAcceptable(h, w.files, r) {
      forall i | 0 <= i < |r.targets| ensures Vetted(h, w.files, r.targets[i], true, r.digest) {
        assert Acceptable(h, w.files, r.targets[i], r.digest);
      }
      RestoreDownDeletes(h, w, r.targets, |r.targets|, true, r.digest);
    }
    hide AllAcceptable;
  }

  /** The same for the strict undo inside a failed install, which checks each target as it goes. */
  lemma AbortDeletesOnlyVerified(h: Hash, w: World, live: Receipt, cause: Error)
    requires Apart(live.targets)
    ensures JustifiedSince(h, w, AbortInstall(h, w, live, cause).world, live.targets, live.digest)
  {
    RestoreDownDeletes(h, w, live.targets, |live.targets|, false, live.digest);
    hide RestoreDown;
    hide Justified;
  }

  // ----- refusals

  /**
   The lenient pass still refuses a swapped target whose temp exists; the checked pass looks at it only if the
   destination exists.
   */
  ghost predicate Blocked(files: Files, t: Target) {
    t.phase == Swapped && t.temp in files
  }

  ghost predicate AnyBlocked(files: Files, targets: seq<Target>, n: nat)
    requires n <= |targets|
  {
    exists i :: 0 <= i < n && Blocked(files, targets[i])
  }

  lemma RestoreAcceptable(h: Hash, w: World, t: Target, digest: string)
    requires SelfApart(t) && Acceptable(h, w.files, t, digest)
    ensures var o := RestoreTarget(h, w, t, true, digest);
      && (Blocked(w.files, t) ==> o == Halt(w, Conflict))
      && (!Blocked(w.files, t) ==>
            && (o.Halt? ==> o.why == Io || o.why == Crash)
            && (w.script == [] ==> o.Go? && o.world.script == []))
  {
    RenameStep(w, t.backup, t.destination);
    RemoveStep(w, t.destination);
    var cleared := RemoveIfPresent(w, t.destination).world;
    RenameStep(cleared, t.backup, t.destination);
    RemoveStep(BringBack(h, w, t, true, digest).world, t.temp);
    hide Rename;
    hide RemoveIfPresent;
  }

  lemma {:induction false} RestoreDownRefuses(h: Hash, w: World, targets: seq<Target>, n: nat, digest: string)
    requires Apart(targets) && n <= |targets|
    requires forall i :: 0 <= i < n ==> Acceptable(h, w.files, targets[i], digest)
    ensures var o := RestoreDown(h, w, targets, n, true, digest);
      && (o.Halt? && o.why == Conflict ==> AnyBlocked(w.files, targets, n))
      && (w.script == [] ==>
            && (o.Go? <==> !AnyBlocked(w.files, targets, n))
            && (o.Go? ==> o.world.script == []) && (o.Halt? ==> o.why == Conflict))
    decreases n
  {
    if n > 0 {
      var t := targets[n - 1];
      var o := RestoreTarget(h, w, t, true, digest);
      RestoreAcceptable(h, w, t, digest);
      RestoreTargetTouches(h, w, t, true, digest);
      hide RestoreTarget;
      if o.Go? {
        forall i | 0 <= i < n - 1
          ensures Acceptable(h, o.world.files, targets[i], digest)
          ensures Blocked(o.world.files, targets[i]) <==> Blocked(w.files, targets[i])
        {
          assert Slots(targets[i]) !! Slots(t);
          assert At(w.files, targets[i].destination) == At(o.world.files, targets[i].destination);
          assert At(w.files, targets[i].temp) == At(o.world.files, targets[i].temp);
          assert At(w.files, targets[i].backup) == At(o.world.files, targets[i].backup);
        }
        RestoreDownRefuses(h, o.world, targets, n - 1, digest);
        hide Acceptable;
        hide Apart;
      }
    }
  }

  /** Nothing for the lenient pass to do at this target. */
  ghost predicate Idle(files: Files, t: Target) {
    && t.temp !in files
    && match t.phase
       case Prepared => t.backup !in files
       case Restored => true
       case _ => t.destination !in files && t.backup !in files
  }

  ghost predicate ClearFrom(files: Files, targets: seq<Target>, i: nat, n: nat)
    requires n <= |targets|
  {
    forall j :: i <= j < n ==> !Blocked(files, targets[j])
  }

  /** The targets that the pass reaches before the last blocked one are all idle. */
  ghost predicate QuietAbove(files: Files, targets: seq<Target>, n: nat)
    requires n <= |targets|
  {
    forall i :: 0 <= i < n && ClearFrom(files, targets, i, n) ==> Idle(files, targets[i])
  }

  lemma QuietBelow(files: Files, targets: seq<Target>, n: nat)
    requires 0 < n <= |targets|
    ensures QuietAbove(files, targets, n) <==>
      Blocked(files, targets[n - 1]) || (Idle(files, targets[n - 1]) && QuietAbove(files, targets, n - 1))
  {
    hide Blocked;
    hide Idle;
    assert ClearFrom(files, targets, n - 1, n) <==> !Blocked(files, targets[n - 1]);
    if !Blocked(files, targets[n - 1]) {
      assert forall i :: 0 <= i < n - 1 ==> (ClearFrom(files, targets, i, n) <==> ClearFrom(files, targets, i, n - 1));
    }
  }

  lemma IdleIsLeft(h: Hash, w: World, t: Target, digest: string)
    requires Idle(w.files, t)
    ensures RestoreTarget(h, w, t, true, digest) == Go(w)
  {
  }

  /** A restored target that was not idle has lost a path. */
  lemma RestoreTakes(h: Hash, w: World, t: Target, digest: string) returns (gone: Path)
    requires SelfApart(t) && Acceptable(h, w.files, t, digest) && !Idle(w.files, t)
    requires RestoreTarget(h, w, t, true, digest).Go?
    ensures gone in Slots(t) && gone in w.files && gone !in RestoreTarget(h, w, t, true, digest).world.files
  {
    RenameStep(w, t.backup, t.destination);
    RemoveStep(w, t.destination);
    var cleared := RemoveIfPresent(w, t.destination).world;
    RenameStep(cleared, t.backup, t.destination);
    var back := BringBack(h, w, t, true, digest);
    RemoveStep(back.world, t.temp);
    hide Rename;
    gone := if t.temp in w.files then t.temp else if t.backup in w.files then t.backup else t.destination;
  }

  /** Restoring touches the slots of its targets only. */
  lemma {:induction false} RestoreDownTouches(h: Hash, w: World, targets: seq<Target>, n: nat, lenient: bool,
      digest: string)
    requires n <= |targets|
    ensures var o := RestoreDown(h, w, targets, n, lenient, digest);
      forall p :: (forall i :: 0 <= i < n ==> p !in Slots(targets[i])) ==> At(w.files, p) == At(o.world.files, p)
    decreases n
  {
    hide RestoreTarget;
    if n > 0 {
      RestoreTargetTouches(h, w, targets[n - 1], lenient, digest);
      var o := RestoreTarget(h, w, targets[n - 1], lenient, digest);
      if o.Go? { RestoreDownTouches(h, o.world, targets, n - 1, lenient, digest); }
    }
  }

  lemma {:induction false} RestoreDownQuiet(h: Hash, w: World, targets: seq<Target>, n: nat, digest: string)
    requires Apart(targets) && n <= |targets|
    requires forall i :: 0 <= i < n ==> Acceptable(h, w.files, targets[i], digest)
    ensures var o := RestoreDown(h, w, targets, n, true, digest);
      o.Halt? && o.why == Conflict ==> (o.world.files == w.files <==> QuietAbove(w.files, targets, n))
    decreases n
  {
    hide RestoreTarget;
    hide Acceptable;
    hide Blocked;
    hide Idle;
    hide QuietAbove;
    if n > 0 {
      var t := targets[n - 1];
      var o := RestoreTarget(h, w, t, true, digest);
      RestoreAcceptable(h, w, t, digest);
      QuietBelow(w.files, targets, n);
      if !Blocked(w.files, t) && o.Go? {
        if Idle(w.files, t) {
          IdleIsLeft(h, w, t, digest);
          RestoreDownQuiet(h, w, targets, n - 1, digest);
        } else {
          var gone := RestoreTakes(h, w, t, digest);
          RestoreDownTouches(h, o.world, targets, n - 1, true, digest);
          assert forall i :: 0 <= i < n - 1 ==> Slots(targets[i]) !! Slots(t);
          assert At(o.world.files, gone) == At(RestoreDown(h, o.world, targets, n - 1, true, digest).world.files, gone);
        }
      }
    }
  }

  /**
   Any receipt, any file contents, any script.  A refused rollback leaves every file alone if and only if it is refused
   before restoring begins, or everything above the last blocked target is idle; without faults the rollback
   completes exactly if all targets are acceptable and none is blocked.
   */
  lemma RefusalLeavesFiles(h: Hash, w: World, operation: string)
    requires operation in w.receipts && w.receipts[operation].operation == operation
    requires w.receipts[operation].status != Aborted && Apart(w.receipts[operation].targets)
    ensures var r := w.receipts[operation];
      var o := Rollback(h, w, operation);
      var clear := AllAcceptable(h, w.files, r) && !AnyBlocked(w.files, r.targets, |r.targets|);
      && (o.Halt? && o.why == Conflict ==>
            && (w.locked || !clear)
            && (o.world.files == w.files <==>
                  w.locked || !AllAcceptable(h, w.files, r) || QuietAbove(w.files, r.targets, |r.targets|)))
      && (w.script == [] && !w.locked ==> (o.Go? <==> clear) && (o.Halt? ==> o.why == Conflict))
  {
    var r := w.receipts[operation];
    var locked := Lock(w);
    hide RestoreDown;
    if locked.Go? && AllAcceptable(h, w.files, r) {
      RestoreDownRefuses(h, locked.world, r.targets, |r.targets|, r.digest);
      RestoreDownQuiet(h, locked.world, r.targets, |r.targets|, r.digest);
    }
    hide QuietAbove;
    hide AnyBlocked;
    hide Acceptable;
  }

  /** The exception is real: with target 0 blocked, target 1 is restored before the refusal. */
  lemma RefusesHalfway(h: Hash, w: World, operation: string)
    requires w.script == [] && !w.locked && operation in w.receipts
    requires var r := w.receipts[operation];
      && r.operation == operation && r.status == Committed && |r.targets| == 2 && Apart(r.targets)
      && AllAcceptable(h, w.files, r) && Blocked(w.files, r.targets[0])
      && r.targets[1].phase == Swapped && r.targets[1].destination !in w.files && r.targets[1].backup in w.files
      && r.targets[1].temp !in w.files
    ensures var o := Rollback(h, w, operation);
      && o.Halt? && o.why == Conflict
      && At(o.world.files, w.receipts[operation].targets[1].destination)
        == At(w.files, w.receipts[operation].targets[1].backup)
  {
    var r := w.receipts[operation];
    var locked := Lock(w).world;
    var t := r.targets[1];
    var first := RestoreTarget(h, locked, t, true, r.digest);
    assert SelfApart(t) && Slots(r.targets[0]) !! Slots(t);
    assert first.Go? && At(first.world.files, t.destination) == At(w.files, t.backup);
    assert At(first.world.files, r.targets[0].temp) == At(w.files, r.targets[0].temp);
    var second := RestoreTarget(h, first.world, r.targets[0], true, r.digest);
    assert second == Halt(first.world, Conflict);
    hide RestoreTarget;
    assert RestoreDown(h, first.world, r.targets, 1, true, r.digest) == second;
    assert RestoreDown(h, locked, r.targets, 2, true, r.digest) == second;
  }

  /** Rolling back what is aborted already changes nothing and succeeds exactly if the lock can be taken. */
  lemma RollbackOfAborted(h: Hash, w: World, operation: string)
    requires operation in w.receipts && w.receipts[operation].operation == operation
    requires w.receipts[operation].status == Aborted
    ensures var o := Rollback(h, w, operation);
      && o.world.files == w.files && o.world.receipts == w.receipts && o.world.deleted == w.deleted
      && (o.Go? <==> !w.locked && Peek(w).Done?)
      && (o.Halt? ==> o.why == if w.locked then Conflict else if Peek(w).Fails? then Io else Crash)
  {
  }

  // ----- the conditions spelled out

  /** Restoring one target under a policy would overwrite, or delete without proof, what stands at its destination. */
  ghost predicate WouldHarm(h: Hash, files: Files, t: Target, lenient: bool, digest: string) {
    match t.phase
    case Prepared => t.destination in files && t.backup in files
    case BackedUp => t.destination in files && !lenient
    case Swapped => t.temp in files || (t.destination in files && !HasDigest(h, files[t.destination], digest))
    case Restored => false
  }

  /** A target is refused exactly then, and then nothing happens to it. */
  lemma RestoreTargetRefusesIff(h: Hash, w: World, t: Target, lenient: bool, digest: string)
    ensures var o := RestoreTarget(h, w, t, lenient, digest);
      && (o.Halt? && o.why == Conflict <==> WouldHarm(h, w.files, t, lenient, digest))
      && (WouldHarm(h, w.files, t, lenient, digest) ==> o == Halt(w, Conflict))
  {
    RenameStep(w, t.backup, t.destination);
    RemoveStep(w, t.destination);
    RenameStep(RemoveIfPresent(w, t.destination).world, t.backup, t.destination);
    RemoveStep(BringBack(h, w, t, lenient, digest).world, t.temp);
    hide Rename;
    hide RemoveIfPresent;
    hide HasDigest;
  }

  /** A destination under a receipt that says backed up or swapped must be the package with its temp gone. */
  ghost predicate Restorable(h: Hash, files: Files, t: Target, digest: string) {
    var proved := t.destination in files ==> HasDigest(h, files[t.destination], digest);
    match t.phase
    case Prepared => t.destination !in files || t.backup !in files
    case BackedUp => proved && (t.destination in files ==> t.temp !in files)
    case Swapped => proved && t.temp !in files
    case Restored => true
  }

  /** Both passes together: a fault-free rollback completes exactly if every target is restorable. */
  lemma RollbackCompletesIff(h: Hash, w: World, operation: string)
    requires operation in w.receipts && w.receipts[operation].operation == operation
    requires w.receipts[operation].status != Aborted && Apart(w.receipts[operation].targets)
    requires w.script == [] && !w.locked
    ensures var r, o := w.receipts[operation], Rollback(h, w, operation);
      && (o.Go? <==> forall i :: 0 <= i < |r.targets| ==> Restorable(h, w.files, r.targets[i], r.digest))
      && (o.Halt? ==> o.why == Conflict)
  {
    var r := w.receipts[operation];
    RefusalLeavesFiles(h, w, operation);
    hide Rollback;
    hide QuietAbove;
    hide Apart;
    hide HasDigest;
    forall i | 0 <= i < |r.targets|
      ensures Restorable(h, w.files, r.targets[i], r.digest) <==>
        Acceptable(h, w.files, r.targets[i], r.digest) && !Blocked(w.files, r.targets[i])
    {
    }
    hide Restorable;
    hide Acceptable;
    hide Blocked;
  }

  /** What a rollback reports before it gets to a recorded receipt. */
  lemma RollbackReports(h: Hash, w: World, operation: string)
    ensures var o := Rollback(h, w, operation);
      if operation !in w.receipts then o == Halt(w, NotFound)
      else if w.receipts[operation].operation != operation then o == Halt(w, Corrupt)
      else if w.locked then o == Halt(w, Conflict)
      else
        && (Peek(w).Fails? ==> o.Halt? && o.why == Io) && (Peek(w).Dies? ==> o.Halt? && o.why == Crash)
        && (o.Halt? ==> o.why == Conflict || o.why == Io || o.why == Crash)
  {
    if operation in w.receipts && Lock(w).Go? {
      var r := w.receipts[operation];
      RestoreDownReports(h, Lock(w).world, r.targets, |r.targets|, true, r.digest);
    }
    hide RestoreDown;
    hide AllAcceptable;
  }

  lemma {:induction false} RestoreDownReports(h: Hash, w: World, targets: seq<Target>, n: nat, lenient: bool,
      digest: string)
    requires n <= |targets|
    ensures var o := RestoreDown(h, w, targets, n, lenient, digest);
      o.Halt? ==> o.why == Conflict || o.why == Io || o.why == Crash
    decreases n
  {
    if n > 0 {
      var o := RestoreTarget(h, w, targets[n - 1], lenient, digest);
      assert o.Halt? ==> o.why == Conflict || o.why == Io || o.why == Crash;
      hide RestoreTarget;
      if o.Go? { RestoreDownReports(h, o.world, targets, n - 1, lenient, digest); }
    }
  }
}
