/** Which old trees survive interrupted rollbacks: an exact condition, for every receipt that recovery can take up. */
module InstallSurvival {
  import opened Wrappers
  import opened FrozenDigest
  import opened InstallModel
  import opened RestoreProofs
  import opened SwapProofs
  import opened InstallTheorems
  import opened InstallRecovery
  import opened InstallRefusals

  // ----- the condition

  /** An old tree whose destination a rollback clears before it brings the backup home. */
  ghost predicate AtRisk(orig: Files, t: Target) {
    (t.phase == BackedUp || t.phase == Swapped) && Was(orig, t).Some?
  }

  /** The target at risk that a rollback comes to first. */
  ghost predicate HighestRisk(orig: Files, targets: seq<Target>, top: nat) {
    && top < |targets| && AtRisk(orig, targets[top])
    && forall j :: top < j < |targets| ==> !AtRisk(orig, targets[j])
  }

  ghost predicate AllSaved(orig: Files, files: Files, targets: seq<Target>) {
    forall i :: 0 <= i < |targets| && AtRisk(orig, targets[i]) ==> At(files, targets[i].backup) == Was(orig, targets[i])
  }

  /** The old tree that comes home first does not hash like the package. */
  ghost predicate Guarded(h: Hash, orig: Files, r: Receipt) {
    forall i: nat :: HighestRisk(orig, r.targets, i) ==> !HasDigest(h, Was(orig, r.targets[i]).value, r.digest)
  }

  lemma {:induction false} SomeHighestRisk(orig: Files, targets: seq<Target>, n: nat) returns (top: nat)
    requires n <= |targets| && exists i :: 0 <= i < n && AtRisk(orig, targets[i])
    requires forall j :: n <= j < |targets| ==> !AtRisk(orig, targets[j])
    ensures HighestRisk(orig, targets, top)
    decreases n
  {
    if AtRisk(orig, targets[n - 1]) {
      top := n - 1;
    } else {
      top := SomeHighestRisk(orig, targets, n - 1);
    }
  }

  // ----- sufficient: a refused rollback changes nothing

  /** A rollback of a receipt that is not acceptable changes nothing, whatever events it meets. */
  lemma UnacceptableIsRefused(h: Hash, w: World, operation: string, script: seq<Event>)
    requires operation in w.receipts && w.receipts[operation].status != Aborted
      && !AllAcceptable(h, w.files, w.receipts[operation])
    ensures var o := Rollback(h, Reboot(w, script), operation);
      o.Halt? && o.world.files == w.files && o.world.receipts == w.receipts
  {
    hide AllAcceptable;
  }

  lemma {:induction false} UnacceptableForEver(h: Hash, w: World, operation: string, scripts: seq<seq<Event>>)
    requires operation in w.receipts && w.receipts[operation].status != Aborted
      && !AllAcceptable(h, w.files, w.receipts[operation])
    ensures var last := Reruns(h, w, operation, scripts); last.files == w.files && last.receipts == w.receipts
    decreases |scripts|
  {
    hide AllAcceptable;
    if scripts != [] {
      UnacceptableIsRefused(h, w, operation, scripts[0]);
      hide Rollback;
      UnacceptableForEver(h, Rollback(h, Reboot(w, scripts[0]), operation).world, operation, scripts[1..]);
    }
  }

  // ----- sufficient: all trees are saved until the first one is home, and from then on every rerun refuses

  ghost predicate TopHome(orig: Files, files: Files, targets: seq<Target>, top: nat) {
    HighestRisk(orig, targets, top) && At(files, targets[top].destination) == Was(orig, targets[top])
  }

  ghost predicate SavedOrHome(orig: Files, files: Files, targets: seq<Target>) {
    AllSaved(orig, files, targets) || exists top: nat :: TopHome(orig, files, targets, top)
  }

  lemma SavedIsReady(h: Hash, orig: Files, files: Files, r: Receipt)
    requires AllSaved(orig, files, r.targets) && AllRecoverable(orig, files, r.targets) && AllAcceptable(h, files, r)
    ensures AllReady(h, orig, files, r.targets, |r.targets|, true, r.digest)
  {
    forall i | 0 <= i < |r.targets| ensures Ready(h, files, r.targets[i], true, r.digest, Was(orig, r.targets[i])) {
      assert Recoverable(files, r.targets[i], Was(orig, r.targets[i]));
      assert Acceptable(h, files, r.targets[i], r.digest);
    }
  }

  /** One restored target keeps the picture at the highest risk, or brings its tree home. */
  lemma RestoreOneKeepsTop(h: Hash, w: World, targets: seq<Target>, n: nat, digest: string, orig: Files, top: nat)
    requires Apart(targets) && n < |targets| && HighestRisk(orig, targets, top)
    requires Ready(h, w.files, targets[n], true, digest, Was(orig, targets[n]))
    requires if top <= n then AllSaved(orig, w.files, targets) else TopHome(orig, w.files, targets, top)
    ensures var o := RestoreTarget(h, w, targets[n], true, digest);
      && (AllSaved(orig, o.world.files, targets) || TopHome(orig, o.world.files, targets, top))
      && (o.Go? && top < n ==> AllSaved(orig, o.world.files, targets))
      && (o.Go? && n <= top ==> TopHome(orig, o.world.files, targets, top))
  {
    var t := targets[n];
    var o := RestoreTarget(h, w, t, true, digest);
    RestoreTargetStep(h, w, t, t.phase, true, digest, Was(orig, t));
    assert t.(phase := t.phase) == t;
    hide RestoreTarget;
    hide Ready;
    forall i | 0 <= i < |targets| && i != n
      ensures At(o.world.files, targets[i].destination) == At(w.files, targets[i].destination)
      ensures At(o.world.files, targets[i].backup) == At(w.files, targets[i].backup)
    {
      assert Slots(t) !! Slots(targets[i]);
    }
    hide Apart;
  }

  lemma {:induction false} RestoreDownKeepsTop(h: Hash, w: World, targets: seq<Target>, n: nat, digest: string,
      orig: Files, top: nat)
    requires Apart(targets) && n <= |targets| && HighestRisk(orig, targets, top)
    requires AllReady(h, orig, w.files, targets, n, true, digest)
    requires if top < n then AllSaved(orig, w.files, targets) else TopHome(orig, w.files, targets, top)
    ensures var o := RestoreDown(h, w, targets, n, true, digest);
      AllSaved(orig, o.world.files, targets) || TopHome(orig, o.world.files, targets, top)
    decreases n
  {
    hide RestoreTarget;
    hide Ready;
    hide HighestRisk;
    hide AllSaved;
    hide TopHome;
    if n > 0 {
      var t := targets[n - 1];
      var o := RestoreTarget(h, w, t, true, digest);
      RestoreOneKeepsTop(h, w, targets, n - 1, digest, orig, top);
      RestoreTargetTouches(h, w, t, true, digest);
      if o.Go? {
        forall i | 0 <= i < n - 1 ensures Ready(h, o.world.files, targets[i], true, digest, Was(orig, targets[i])) {
          assert Slots(targets[i]) !! Slots(t);
          RestoreProofs.Frame(h, w.files, o.world.files, t, targets[i], true, digest, Was(orig, targets[i]));
        }
        RestoreDownKeepsTop(h, o.world, targets, n - 1, digest, orig, top);
      }
    }
  }

  lemma RestoreKeepsSavedOrHome(h: Hash, w: World, targets: seq<Target>, digest: string, orig: Files)
    requires Apart(targets) && AllSaved(orig, w.files, targets)
    requires AllReady(h, orig, w.files, targets, |targets|, true, digest)
    ensures SavedOrHome(orig, RestoreDown(h, w, targets, |targets|, true, digest).world.files, targets)
  {
    hide RestoreDown;
    hide AllReady;
    hide Apart;
    if exists i :: 0 <= i < |targets| && AtRisk(orig, targets[i]) {
      var top := SomeHighestRisk(orig, targets, |targets|);
      assert top < |targets|;
      RestoreDownKeepsTop(h, w, targets, |targets|, digest, orig, top);
      hide AllSaved;
      hide TopHome;
    }
  }

  /** A receipt between reruns, with the first tree guarded. */
  ghost predicate Between(h: Hash, w: World, operation: string, orig: Files) {
    && Undoable(w, operation, orig)
    && var r := w.receipts[operation];
    && Guarded(h, orig, r) && SavedOrHome(orig, w.files, r.targets)
  }

  lemma TopHomeRefuses(h: Hash, files: Files, r: Receipt, orig: Files, top: nat)
    requires Guarded(h, orig, r) && TopHome(orig, files, r.targets, top)
    ensures !AllAcceptable(h, files, r)
  {
    assert !Acceptable(h, files, r.targets[top], r.digest);
  }

  lemma AcceptableIsSaved(h: Hash, w: World, operation: string, orig: Files)
    requires Between(h, w, operation, orig) && AllAcceptable(h, w.files, w.receipts[operation])
    ensures var r := w.receipts[operation];
      AllSaved(orig, w.files, r.targets) && AllReady(h, orig, w.files, r.targets, |r.targets|, true, r.digest)
  {
    var r := w.receipts[operation];
    hide AllSaved;
    hide TopHome;
    hide AllReady;
    hide AllAcceptable;
    hide AllRecoverable;
    hide Guarded;
    if top: nat :| TopHome(orig, w.files, r.targets, top) { TopHomeRefuses(h, w.files, r, orig, top); }
    SavedIsReady(h, orig, w.files, r);
  }

  /** What a rollback leaves is what its restoring pass leaves, if it gets that far. */
  lemma RollbackFiles(h: Hash, w: World, operation: string)
    requires operation in w.receipts
    ensures var r := w.receipts[operation];
      var files := Rollback(h, w, operation).world.files;
      || files == w.files
      || (Lock(w).Go? && AllAcceptable(h, w.files, r)
          && files == RestoreDown(h, Lock(w).world, r.targets, |r.targets|, true, r.digest).world.files)
  {
    hide AllAcceptable;
    hide RestoreDown;
  }

  lemma RollbackKeepsBetween(h: Hash, w: World, operation: string, orig: Files)
    requires Between(h, w, operation, orig)
    ensures var o := Rollback(h, w, operation);
      && Attempted(w, operation, orig, o) && (o.Halt? ==> Between(h, o.world, operation, orig))
  {
    var r := w.receipts[operation];
    hide RestoreDown;
    hide AllAcceptable;
    hide AllReady;
    hide Apart;
    hide SavedOrHome;
    if AllAcceptable(h, w.files, r) {
      AcceptableIsSaved(h, w, operation, orig);
      RestoreKeepsSavedOrHome(h, Lock(w).world, r.targets, r.digest, orig);
    }
    RollbackFromReady(h, w, operation, orig);
    RollbackFiles(h, w, operation);
    hide Rollback;
    hide AllRecoverable;
    hide AllSaved;
    hide Guarded;
    hide Lock;
  }

  lemma RebootedBetween(h: Hash, w: World, operation: string, orig: Files, script: seq<Event>)
    requires Between(h, w, operation, orig)
    ensures Between(h, Reboot(w, script), operation, orig)
    ensures OriginalsSurvive(orig, w.files, w.receipts[operation].targets)
  {
    UndoableSurvives(w, operation, orig);
    hide OriginalsSurvive;
    hide AllRecoverable;
    hide SavedOrHome;
    hide Guarded;
  }

  lemma {:induction false} RerunsSurvive(h: Hash, w: World, operation: string, orig: Files, scripts: seq<seq<Event>>)
    requires Between(h, w, operation, orig)
    ensures OriginalsSurvive(orig, Reruns(h, w, operation, scripts).files, w.receipts[operation].targets)
    decreases |scripts|
  {
    RebootedBetween(h, w, operation, orig, if scripts == [] then [] else scripts[0]);
    hide Between;
    hide Rollback;
    if scripts != [] {
      var again := Reboot(w, scripts[0]);
      RollbackKeepsBetween(h, again, operation, orig);
      var o := Rollback(h, again, operation);
      if o.Go? {
        RerunsOfAborted(h, o.world, operation, scripts[1..]);
        HomeSurvives(orig, w.receipts[operation].targets);
      } else {
        hide OriginalsSurvive;
        RerunsSurvive(h, o.world, operation, orig, scripts[1..]);
      }
    }
  }

  lemma HomeSurvives(orig: Files, targets: seq<Target>)
    ensures OriginalsSurvive(orig, orig, targets)
  {
  }

  // ----- necessary: a tree that is home while its phase is not restored, and hashes like the package, is deleted

  lemma RestoreTargetDrops(h: Hash, w: World, t: Target, digest: string)
    requires SelfApart(t) && (t.phase == BackedUp || t.phase == Swapped) && t.backup !in w.files
    requires RestoreTarget(h, w, t, true, digest).Go?
    ensures var files := RestoreTarget(h, w, t, true, digest).world.files; t.destination !in files && t.backup !in files
  {
    RestoreTargetTouches(h, w, t, true, digest);
  }

  lemma {:induction false} RestoreDownDrops(h: Hash, w: World, targets: seq<Target>, n: nat, digest: string, i: nat)
    requires Apart(targets) && i < n <= |targets| && targets[i].backup !in w.files
    requires targets[i].phase == BackedUp || targets[i].phase == Swapped
    requires RestoreDown(h, w, targets, n, true, digest).Go?
    ensures var files := RestoreDown(h, w, targets, n, true, digest).world.files;
      targets[i].destination !in files && targets[i].backup !in files
    decreases n
  {
    hide RestoreTarget;
    var o := RestoreTarget(h, w, targets[n - 1], true, digest);
    if i == n - 1 {
      RestoreTargetDrops(h, w, targets[i], digest);
      RestoreDownTouches(h, o.world, targets, n - 1, true, digest);
      assert forall j :: 0 <= j < n - 1 ==> Slots(targets[j]) !! Slots(targets[i]);
      var last := RestoreDown(h, o.world, targets, n - 1, true, digest).world.files;
      assert At(last, targets[i].destination) == At(o.world.files, targets[i].destination);
      assert At(last, targets[i].backup) == At(o.world.files, targets[i].backup);
    } else {
      RestoreTargetTouches(h, w, targets[n - 1], true, digest);
      assert Slots(targets[i]) !! Slots(targets[n - 1]);
      assert At(o.world.files, targets[i].backup) == At(w.files, targets[i].backup);
      RestoreDownDrops(h, o.world, targets, n - 1, digest, i);
    }
  }

  /** A fault-free rollback that finds a tree hashing like the package and no backup deletes it, whatever it is. */
  lemma DeletesLookalike(h: Hash, w: World, operation: string, i: nat)
    requires operation in w.receipts && w.script == [] && !w.locked
    requires var r := w.receipts[operation];
      && r.operation == operation && r.status != Aborted && Apart(r.targets) && i < |r.targets|
      && AllAcceptable(h, w.files, r) && !AnyBlocked(w.files, r.targets, |r.targets|)
      && (r.targets[i].phase == BackedUp || r.targets[i].phase == Swapped) && r.targets[i].backup !in w.files
    ensures var t := w.receipts[operation].targets[i];
      var o := Rollback(h, w, operation);
      o.Go? && t.destination !in o.world.files && t.backup !in o.world.files
  {
    var r := w.receipts[operation];
    RefusalLeavesFiles(h, w, operation);
    hide AllAcceptable;
    hide AnyBlocked;
    hide QuietAbove;
    hide RestoreDown;
    RestoreDownDrops(h, Lock(w).world, r.targets, |r.targets|, r.digest, i);
  }

  lemma RerunsOnce(h: Hash, w: World, operation: string, a: seq<Event>)
    ensures Reruns(h, w, operation, [a]) == Rollback(h, Reboot(w, a), operation).world
  {
    hide Rollback;
    var last := Rollback(h, Reboot(w, a), operation).world;
    assert [a][1..] == [];
    assert Reruns(h, last, operation, []) == last;
  }

  lemma RerunsTwice(h: Hash, w: World, operation: string, a: seq<Event>, b: seq<Event>)
    ensures var first := Rollback(h, Reboot(w, a), operation).world;
      Reruns(h, w, operation, [a, b]) == Rollback(h, Reboot(first, b), operation).world
  {
    hide Rollback;
    var first := Rollback(h, Reboot(w, a), operation).world;
    RerunsOnce(h, first, operation, b);
    assert [a, b][1..] == [b];
  }

  lemma RecoverableIsUnblocked(orig: Files, files: Files, targets: seq<Target>)
    requires AllRecoverable(orig, files, targets)
    ensures !AnyBlocked(files, targets, |targets|)
  {
    forall i | 0 <= i < |targets| ensures !Blocked(files, targets[i]) {
      assert Recoverable(files, targets[i], Was(orig, targets[i]));
    }
  }

  /** One run is enough if a target at risk has left its backup. */
  lemma UnsavedIsLost(h: Hash, w: World, operation: string, orig: Files)
    requires Undoable(w, operation, orig) && AllAcceptable(h, w.files, w.receipts[operation])
    requires !AllSaved(orig, w.files, w.receipts[operation].targets)
    ensures !OriginalsSurvive(orig, Reruns(h, w, operation, [[]]).files, w.receipts[operation].targets)
  {
    var r := w.receipts[operation];
    var i: nat :| i < |r.targets| && AtRisk(orig, r.targets[i])
      && At(w.files, r.targets[i].backup) != Was(orig, r.targets[i]);
    assert Recoverable(w.files, r.targets[i], Was(orig, r.targets[i]));
    RecoverableIsUnblocked(orig, w.files, r.targets);
    RerunsOnce(h, w, operation, []);
    hide AnyBlocked;
    hide AllAcceptable;
    hide AllRecoverable;
    hide Rollback;
    hide Reruns;
    DeletesLookalike(h, Reboot(w, []), operation, i);
  }

  // ----- necessary: the tree that comes home first is deleted by the second run, if the first one dies there

  const DIES: seq<Event> := [Dies(None, false)]

  /** A fault-free step sequence can be followed by any other events. */
  lemma ReplayRemove(w: World, p: Path, rest: seq<Event>) returns (events: seq<Event>)
    requires w.script == []
    ensures RemoveIfPresent(w.(script := events), p) == Go(RemoveIfPresent(w, p).world.(script := rest))
  {
    events := if p in w.files then [Done] + rest else rest;
  }

  lemma ReplayRename(w: World, source: Path, target: Path, rest: seq<Event>) returns (events: seq<Event>)
    requires w.script == [] && Rename(w, source, target).Go?
    ensures Rename(w.(script := events), source, target) == Go(Rename(w, source, target).world.(script := rest))
  {
    events := [Done] + rest;
  }

  lemma ReplayPutBack(w: World, t: Target, rest: seq<Event>) returns (events: seq<Event>)
    requires w.script == [] && PutBack(w, t).Go?
    ensures PutBack(w.(script := events), t) == Go(PutBack(w, t).world.(script := rest))
  {
    var cleared := RemoveIfPresent(w, t.destination).world;
    RemoveStep(w, t.destination);
    events := rest;
    if t.backup in cleared.files { events := ReplayRename(cleared, t.backup, t.destination, rest); }
    events := ReplayRemove(w, t.destination, events);
    hide RemoveIfPresent;
    hide Rename;
  }

  lemma ReplayBringBack(h: Hash, w: World, t: Target, digest: string, rest: seq<Event>) returns (events: seq<Event>)
    requires w.script == [] && BringBack(h, w, t, true, digest).Go?
    ensures BringBack(h, w.(script := events), t, true, digest)
      == Go(BringBack(h, w, t, true, digest).world.(script := rest))
  {
    hide PutBack;
    hide Rename;
    hide HasDigest;
    events := rest;
    if t.phase == Prepared && t.backup in w.files {
      events := ReplayRename(w, t.backup, t.destination, rest);
    } else if t.phase == BackedUp || t.phase == Swapped {
      events := ReplayPutBack(w, t, rest);
    } else {
      assert w.(script := events) == BringBack(h, w, t, true, digest).world.(script := rest);
    }
  }

  lemma ReplayRestore(h: Hash, w: World, t: Target, digest: string, rest: seq<Event>) returns (events: seq<Event>)
    requires w.script == [] && BringBack(h, w, t, true, digest).world.script == []
    requires RestoreTarget(h, w, t, true, digest).Go?
    ensures RestoreTarget(h, w.(script := events), t, true, digest)
      == Go(RestoreTarget(h, w, t, true, digest).world.(script := rest))
  {
    var back := BringBack(h, w, t, true, digest).world;
    events := ReplayRemove(back, t.temp, rest);
    events := ReplayBringBack(h, w, t, digest, events);
    hide BringBack;
    hide RemoveIfPresent;
  }

  lemma BringBackUsesNothing(h: Hash, w: World, t: Target, digest: string)
    requires w.script == []
    ensures BringBack(h, w, t, true, digest).world.script == []
  {
  }

  /** Without faults, target by target, down to `top` and including it; the events `rest` are still to come. */
  lemma {:induction false} ReachesTop(h: Hash, w: World, targets: seq<Target>, n: nat, top: nat, digest: string,
      orig: Files, rest: seq<Event>) returns (events: seq<Event>, v: World)
    requires Apart(targets) && top <= n <= |targets| && w.script == []
    requires AllReady(h, orig, w.files, targets, n, true, digest) && AllReturned(orig, w.files, targets, n)
    requires SameOutside(orig, w.files, targets)
    ensures RestoreDown(h, w.(script := events), targets, n, true, digest)
      == RestoreDown(h, v, targets, top, true, digest)
    ensures v.script == rest && OnlyFiles(w, v)
    ensures AllReady(h, orig, v.files, targets, top, true, digest) && AllReturned(orig, v.files, targets, top)
    decreases n
  {
    hide RestoreTarget;
    hide BringBack;
    hide Ready;
    hide Returned;
    hide Apart;
    hide SameOutside;
    if n == top {
      events, v := rest, w.(script := rest);
    } else {
      var t := targets[n - 1];
      RestoreTargetKeepsOthers(h, w, targets, targets, n - 1, true, digest, orig);
      var next := RestoreTarget(h, w, t, true, digest).world;
      events, v := ReachesTop(h, next, targets, n - 1, top, digest, orig, rest);
      BringBackUsesNothing(h, w, t, digest);
      events := ReplayRestore(h, w, t, digest, events);
    }
  }

  /** Some paths are gone, nothing else differs. */
  ghost predicate Shrunk(f: Files, g: Files) {
    forall p :: p in g ==> p in f && g[p] == f[p]
  }

  /** Either nothing happened, or the process is dead and at most one path is gone. */
  ghost predicate Dying(w: World, o: Outcome) {
    Shrunk(w.files, o.world.files) && OnlyFiles(w, o.world) && (o.Go? ==> o.world == w)
  }

  lemma DyingPrimitive(w: World, p: Path, target: Path)
    requires w.script == DIES
    ensures Dying(w, RemoveIfPresent(w, p)) && Dying(w, Rename(w, p, target))
  {
  }

  lemma DyingStep(h: Hash, w: World, t: Target, digest: string)
    requires w.script == DIES
    ensures Dying(w, RestoreTarget(h, w, t, true, digest))
  {
    DyingPrimitive(w, t.temp, t.temp);
    DyingPrimitive(w, t.destination, t.temp);
    DyingPrimitive(w, t.backup, t.destination);
    hide RemoveIfPresent;
    hide Rename;
    hide HasDigest;
    assert Dying(w, PutBack(w, t));
    assert Dying(w, BringBack(h, w, t, true, digest)) by { hide PutBack; }
    hide BringBack;
  }

  /** The next event, wherever it falls, is where the process dies. */
  lemma {:induction false} DyingBelow(h: Hash, w: World, targets: seq<Target>, n: nat, digest: string)
    requires n <= |targets| && w.script == DIES
    ensures Dying(w, RestoreDown(h, w, targets, n, true, digest))
    decreases n
  {
    hide RestoreTarget;
    if n > 0 {
      DyingStep(h, w, targets[n - 1], digest);
      DyingBelow(h, w, targets, n - 1, digest);
    }
  }

  lemma ShrunkStaysAcceptable(h: Hash, f: Files, g: Files, r: Receipt)
    requires Shrunk(f, g) && AllAcceptable(h, f, r) && !AnyBlocked(f, r.targets, |r.targets|)
    ensures AllAcceptable(h, g, r) && !AnyBlocked(g, r.targets, |r.targets|)
  {
    hide HasDigest;
    forall i | 0 <= i < |r.targets| ensures Acceptable(h, g, r.targets[i], r.digest) && !Blocked(g, r.targets[i]) {
      assert Acceptable(h, f, r.targets[i], r.digest) && !Blocked(f, r.targets[i]);
    }
  }

  /** Everything from the highest risk up is home, and nothing stops the next rollback. */
  lemma HomeFromTopIsAcceptable(h: Hash, orig: Files, files: Files, r: Receipt, top: nat)
    requires HighestRisk(orig, r.targets, top) && HasDigest(h, Was(orig, r.targets[top]).value, r.digest)
    requires AllReady(h, orig, files, r.targets, top, true, r.digest) && AllReturned(orig, files, r.targets, top)
    ensures AllAcceptable(h, files, r) && !AnyBlocked(files, r.targets, |r.targets|)
  {
    hide HasDigest;
    forall i | 0 <= i < |r.targets|
      ensures Acceptable(h, files, r.targets[i], r.digest) && !Blocked(files, r.targets[i])
    {
      if i < top {
        assert Ready(h, files, r.targets[i], true, r.digest, Was(orig, r.targets[i]));
      } else {
        assert Returned(files, r.targets[i], Was(orig, r.targets[i]));
      }
    }
  }

  /** The restoring pass that dies once the tree at the highest risk is home. */
  lemma RestoreDies(h: Hash, w: World, r: Receipt, orig: Files, top: nat) returns (events: seq<Event>)
    requires Apart(r.targets) && w.script == [] && SameOutside(orig, w.files, r.targets)
    requires AllReady(h, orig, w.files, r.targets, |r.targets|, true, r.digest)
    requires HighestRisk(orig, r.targets, top) && HasDigest(h, Was(orig, r.targets[top]).value, r.digest)
    ensures var o := RestoreDown(h, w.(script := events), r.targets, |r.targets|, true, r.digest);
      && OnlyFiles(w, o.world) && (o.Go? ==> o.world.script == DIES)
      && AllAcceptable(h, o.world.files, r) && !AnyBlocked(o.world.files, r.targets, |r.targets|)
      && At(o.world.files, r.targets[top].destination) == Was(orig, r.targets[top])
      && r.targets[top].backup !in o.world.files
  {
    assert top < |r.targets|;
    var v: World;
    events, v := ReachesTop(h, w, r.targets, |r.targets|, top, r.digest, orig, DIES);
    HomeFromTopIsAcceptable(h, orig, v.files, r, top);
    assert Returned(v.files, r.targets[top], Was(orig, r.targets[top]));
    DyingBelow(h, v, r.targets, top, r.digest);
    RestoreDownTouches(h, v, r.targets, top, true, r.digest);
    assert forall j :: 0 <= j < top ==> Slots(r.targets[j]) !! Slots(r.targets[top]);
    hide RestoreDown;
    hide AllReady;
    hide AllReturned;
    hide AllAcceptable;
    hide AnyBlocked;
    hide HighestRisk;
    hide HasDigest;
    hide Apart;
    var o := RestoreDown(h, v, r.targets, top, true, r.digest);
    ShrunkStaysAcceptable(h, v.files, o.world.files, r);
    hide Shrunk;
    assert At(o.world.files, r.targets[top].destination) == At(v.files, r.targets[top].destination);
    assert At(o.world.files, r.targets[top].backup) == At(v.files, r.targets[top].backup);
  }

  /** A rollback whose restoring pass dies, or uses up all but the last event, leaves the files of that pass. */
  lemma RollbackDies(h: Hash, w: World, operation: string)
    requires operation in w.receipts && w.receipts[operation].operation == operation && Lock(w).Go?
    requires w.receipts[operation].status != Aborted && AllAcceptable(h, w.files, w.receipts[operation])
    requires var r := w.receipts[operation];
      var o := RestoreDown(h, Lock(w).world, r.targets, |r.targets|, true, r.digest);
      OnlyFiles(Lock(w).world, o.world) && (o.Go? ==> o.world.script == DIES)
    ensures var r := w.receipts[operation];
      var o := Rollback(h, w, operation);
      && o.Halt? && o.world.receipts == w.receipts
      && o.world.files == RestoreDown(h, Lock(w).world, r.targets, |r.targets|, true, r.digest).world.files
  {
    hide RestoreDown;
    hide AllAcceptable;
  }

  /** Some rollback dies with the first tree home, the receipt unchanged, and nothing to stop the next one. */
  lemma DiesOnceHome(h: Hash, w: World, operation: string, orig: Files, top: nat) returns (script: seq<Event>)
    requires Undoable(w, operation, orig) && AllAcceptable(h, w.files, w.receipts[operation])
    requires var r := w.receipts[operation];
      && AllSaved(orig, w.files, r.targets) && HighestRisk(orig, r.targets, top)
      && HasDigest(h, Was(orig, r.targets[top]).value, r.digest)
    ensures var r := w.receipts[operation];
      var o := Rollback(h, Reboot(w, script), operation);
      && o.Halt? && o.world.receipts == w.receipts
      && At(o.world.files, r.targets[top].destination) == Was(orig, r.targets[top])
      && r.targets[top].backup !in o.world.files
      && AllAcceptable(h, o.world.files, r) && !AnyBlocked(o.world.files, r.targets, |r.targets|)
  {
    var r := w.receipts[operation];
    assert top < |r.targets|;
    hide HasDigest;
    hide RestoreDown;
    hide Rollback;
    hide Apart;
    hide Clean;
    hide AllAcceptable;
    hide AnyBlocked;
    hide AllReady;
    hide SameOutside;
    hide AllSaved;
    hide HighestRisk;
    SavedIsReady(h, orig, w.files, r);
    var locked := Lock(Reboot(w, [])).world;
    var pass := RestoreDies(h, locked, r, orig, top);
    script := [Done] + pass;
    var again := Reboot(w, script);
    assert script[1..] == pass;
    assert Lock(again) == Go(locked.(script := pass));
    RollbackDies(h, again, operation);
  }

  /** Two runs are enough if all trees are still saved. */
  lemma FirstHomeIsLost(h: Hash, w: World, operation: string, orig: Files, top: nat)
      returns (scripts: seq<seq<Event>>)
    requires Undoable(w, operation, orig) && AllAcceptable(h, w.files, w.receipts[operation])
    requires var r := w.receipts[operation];
      && AllSaved(orig, w.files, r.targets) && HighestRisk(orig, r.targets, top)
      && HasDigest(h, Was(orig, r.targets[top]).value, r.digest)
    ensures !OriginalsSurvive(orig, Reruns(h, w, operation, scripts).files, w.receipts[operation].targets)
  {
    hide Rollback;
    hide Reruns;
    hide HasDigest;
    hide AllAcceptable;
    hide AnyBlocked;
    hide AllRecoverable;
    hide AllSaved;
    var r := w.receipts[operation];
    var script := DiesOnceHome(h, w, operation, orig, top);
    var first := Rollback(h, Reboot(w, script), operation).world;
    DeletesLookalike(h, Reboot(first, []), operation, top);
    RerunsTwice(h, w, operation, script, []);
    scripts := [script, []];
  }

  // ----- main result

  /**
   Any receipt that recovery can take up, over any number of targets: every old tree survives every sequence of
   interrupted rollbacks if and only if a rollback refuses from the start, or every tree at risk is still saved and
   the one that comes home first does not hash like the package.
   */
  lemma OriginalsSurviveIff(h: Hash, w: World, operation: string, orig: Files)
    requires Undoable(w, operation, orig)
    ensures var r := w.receipts[operation];
      (forall scripts :: OriginalsSurvive(orig, Reruns(h, w, operation, scripts).files, r.targets))
      <==> !AllAcceptable(h, w.files, r) || (AllSaved(orig, w.files, r.targets) && Guarded(h, orig, r))
  {
    var r := w.receipts[operation];
    hide Reruns;
    hide OriginalsSurvive;
    hide AllAcceptable;
    hide AllSaved;
    hide AllRecoverable;
    hide HighestRisk;
    hide HasDigest;
    hide Apart;
    hide Clean;
    if !AllAcceptable(h, w.files, r) {
      UndoableSurvives(w, operation, orig);
      forall scripts ensures OriginalsSurvive(orig, Reruns(h, w, operation, scripts).files, r.targets) {
        UnacceptableForEver(h, w, operation, scripts);
      }
    } else if !AllSaved(orig, w.files, r.targets) {
      UnsavedIsLost(h, w, operation, orig);
    } else if Guarded(h, orig, r) {
      forall scripts ensures OriginalsSurvive(orig, Reruns(h, w, operation, scripts).files, r.targets) {
        RerunsSurvive(h, w, operation, orig, scripts);
      }
    } else {
      var top: nat :| HighestRisk(orig, r.targets, top) && HasDigest(h, Was(orig, r.targets[top]).value, r.digest);
      var scripts := FirstHomeIsLost(h, w, operation, orig, top);
    }
  }

  // ----- what an install leaves

  /** A committed receipt over files that hold the package everywhere and the old trees in the backups. */
  ghost predicate CommittedOver(h: Hash, w: World, operation: string, orig: Files, package: seq<FrozenFile>) {
    && operation in w.receipts
    && var r := w.receipts[operation];
    && r.operation == operation && r.status == Committed && r.digest == h(Framed(package))
    && Apart(r.targets) && Clean(orig, r.targets) && Installed(orig, w.files, r.targets, PackageTree(package))
  }

  /** Every committed install starts that way. */
  lemma InstallIsCommittedOver(h: Hash, w: World, req: Request)
    requires Proper(req) && Recorded(h, w, req, Install(h, w, req))
    requires Install(h, w, req).world.receipts[req.operation].status == Committed
    ensures CommittedOver(h, Install(h, w, req).world, req.operation, w.files, req.package)
  {
    hide Install;
    hide CleanCrash;
    var d := Install(h, w, req).world.receipts[req.operation];
    PlannedIsApart(req, Plan(req));
    assert forall i :: 0 <= i < |d.targets| ==> Slots(d.targets[i]) == Slots(Plan(req)[i]);
    assert forall i :: 0 <= i < |d.targets| ==> SelfApart(Plan(req)[i]) && d.targets[i].temp == Plan(req)[i].temp;
    assert Clean(w.files, d.targets);
    hide Installed;
  }

  /** The last destination that was occupied. */
  ghost predicate LastOccupied(orig: Files, targets: seq<Target>, top: nat) {
    && top < |targets| && Was(orig, targets[top]).Some?
    && forall j :: top < j < |targets| ==> Was(orig, targets[j]).None?
  }

  lemma InFlightIsSaved(h: Hash, orig: Files, files: Files, r: Receipt, package: seq<FrozenFile>)
    requires AllInFlight(orig, files, r.targets, PackageTree(package)) && r.digest == h(Framed(package))
    ensures AllAcceptable(h, files, r) && AllSaved(orig, files, r.targets) && AllRecoverable(orig, files, r.targets)
  {
    InFlightIsReady(h, orig, files, r.targets, package);
    forall i | 0 <= i < |r.targets| && AtRisk(orig, r.targets[i])
      ensures At(files, r.targets[i].backup) == Was(orig, r.targets[i])
    {
      assert InFlight(files, r.targets[i], PackageTree(package), Was(orig, r.targets[i]));
    }
    hide InFlight;
    hide Acceptable;
  }

  /**
   After a committed install: every old tree survives every sequence of interrupted rollbacks if and only if the old
   tree of the last occupied destination does not hash like the package.
   */
  lemma CommittedSurvivesIff(h: Hash, w: World, operation: string, orig: Files, package: seq<FrozenFile>)
    requires CommittedOver(h, w, operation, orig, package)
    ensures var r := w.receipts[operation];
      (forall scripts :: OriginalsSurvive(orig, Reruns(h, w, operation, scripts).files, r.targets))
      <==> forall i: nat :: LastOccupied(orig, r.targets, i) ==> !HasDigest(h, Was(orig, r.targets[i]).value, r.digest)
  {
    var r := w.receipts[operation];
    hide Reruns;
    hide OriginalsSurvive;
    hide HasDigest;
    InFlightIsSaved(h, orig, w.files, r, package);
    forall i: nat ensures LastOccupied(orig, r.targets, i) <==> HighestRisk(orig, r.targets, i) {
    }
    hide AllAcceptable;
    hide AllInFlight;
    hide AllRecoverable;
    hide AllSaved;
    hide HighestRisk;
    hide LastOccupied;
    OriginalsSurviveIff(h, w, operation, orig);
  }

  /**
   After an install that died with its transaction recorded: every old tree survives every sequence of interrupted
   rollbacks if and only if the one that comes home first does not hash like the package.
   */
  lemma CrashedSurvivesIff(h: Hash, w: World, req: Request)
    requires Proper(req) && CrashOnly(w.script)
    requires Recorded(h, w, req, Install(h, w, req)) && Install(h, w, req).Halt?
    ensures var o := Install(h, w, req);
      var r := o.world.receipts[req.operation];
      (forall scripts :: OriginalsSurvive(w.files, Reruns(h, o.world, req.operation, scripts).files, r.targets))
      <==> Guarded(h, w.files, r)
  {
    var o := Install(h, w, req);
    hide Install;
    hide Reruns;
    hide OriginalsSurvive;
    hide AllAcceptable;
    hide AllInFlight;
    hide AllRecoverable;
    hide AllSaved;
    hide Guarded;
    RecordedIsUndoable(h, w, req, o);
    var r := o.world.receipts[req.operation];
    assert CleanCrash(PlanReceipt(h, req), o, req.package, w.files);
    InFlightIsSaved(h, w.files, o.world.files, r, req.package);
    OriginalsSurviveIff(h, o.world, req.operation, w.files);
  }
}
