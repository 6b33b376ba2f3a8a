/** Restoring targets: from which states it succeeds, and what an interruption leaves recoverable. */
module RestoreProofs {
  import opened Wrappers
  import opened InstallModel

  // ----- footprints

  ghost function Slots(t: Target): set<Path> {
    {t.destination, t.temp, t.backup}
  }

  ghost predicate SelfApart(t: Target) {
    t.destination != t.temp && t.destination != t.backup && t.temp != t.backup
  }

  /** No path plays two roles. */
  ghost predicate Apart(targets: seq<Target>) {
    && (forall i :: 0 <= i < |targets| ==> SelfApart(targets[i]))
    && (forall i, j :: 0 <= i < j < |targets| ==> Slots(targets[i]) !! Slots(targets[j]))
  }

  ghost predicate SameExcept(f: Files, g: Files, paths: set<Path>) {
    forall p :: p !in paths ==> At(f, p) == At(g, p)
  }

  ghost predicate Outside(targets: seq<Target>, p: Path) {
    forall i :: 0 <= i < |targets| ==> p !in Slots(targets[i])
  }

  ghost predicate SameOutside(f: Files, g: Files, targets: seq<Target>) {
    forall p :: Outside(targets, p) ==> At(f, p) == At(g, p)
  }

  /** Everything a step of restoring leaves alone. */
  ghost predicate OnlyFiles(w: World, w': World) {
    w'.receipts == w.receipts && w'.strays == w.strays && w'.locked == w.locked
  }

  // ----- what can be found at one target; `was` is what its destination held before the transaction

  ghost predicate Returned(files: Files, t: Target, was: Option<Tree>) {
    At(files, t.destination) == was && t.temp !in files && t.backup !in files
  }

  /** The original tree is at its destination or at its backup, and the recorded phase says enough to continue. */
  ghost predicate Recoverable(files: Files, t: Target, was: Option<Tree>) {
    var home := At(files, t.destination) == was && t.backup !in files;
    var saved := At(files, t.backup) == was;
    match t.phase
    case Prepared => home || (saved && t.destination !in files)
    case BackedUp => home || (saved && (t.destination !in files || t.temp !in files))
    case Swapped => t.temp !in files && (home || saved)
    case Restored => home
  }

  /** Restoring this target will not refuse and will not touch the original tree. */
  ghost predicate Ready(h: Hash, files: Files, t: Target, lenient: bool, digest: string, was: Option<Tree>) {
    var saved := At(files, t.backup) == was;
    var verified := t.destination in files ==> HasDigest(h, files[t.destination], digest);
    match t.phase
    case Prepared => Recoverable(files, t, was)
    case BackedUp => saved && (t.destination in files ==> lenient && t.temp !in files && verified)
    case Swapped => saved && t.temp !in files && verified
    case Restored => Recoverable(files, t, was)
  }

  /** The phase in the durable receipt may be one write behind the phase in memory. */
  ghost predicate Lags(durable: Phase, live: Phase, lenient: bool) {
    durable == live || (!lenient && (
      (durable == Prepared && live == BackedUp) || (durable == BackedUp && live == Swapped)))
  }

  ghost predicate LaggingTargets(durable: seq<Target>, live: seq<Target>, lenient: bool) {
    && |durable| == |live|
    && forall i :: 0 <= i < |live| ==>
         durable[i] == live[i].(phase := durable[i].phase) && Lags(durable[i].phase, live[i].phase, lenient)
  }

  lemma RenameStep(w: World, source: Path, target: Path)
    ensures var o := Rename(w, source, target);
      && OnlyFiles(w, o.world)
      && (o.Halt? ==> o.world.files == w.files && (o.why == Io || o.why == Crash))
      && SameExcept(w.files, o.world.files, {source, target})
      && (o.Go? ==>
            && source in w.files && target !in w.files
            && At(o.world.files, target) == At(w.files, source)
            && (source != target ==> source !in o.world.files))
      && (w.script == [] ==> o.world.script == [] && (source in w.files && target !in w.files ==> o.Go?))
  {
  }

  lemma RemoveStep(w: World, p: Path)
    ensures var o := RemoveIfPresent(w, p);
      && OnlyFiles(w, o.world)
      && SameExcept(w.files, o.world.files, {p})
      && (o.Halt? ==> o.why == Io || o.why == Crash)
      && (o.Go? ==> p !in o.world.files)
      && (w.script == [] ==> o.Go? && o.world.script == [])
  {
  }

  lemma PutBackStep(w: World, t: Target, was: Option<Tree>)
    requires SelfApart(t) && At(w.files, t.backup) == was && (t.destination in w.files ==> t.temp !in w.files)
    ensures var o := PutBack(w, t);
      var home := At(o.world.files, t.destination) == was && t.backup !in o.world.files;
      && OnlyFiles(w, o.world)
      && SameExcept(w.files, o.world.files, {t.destination, t.backup})
      && (o.Go? ==> home)
      && (home || (At(o.world.files, t.backup) == was
        && (t.destination !in w.files ==> t.destination !in o.world.files)))
      && (o.Halt? ==> o.why == Io || o.why == Crash)
      && (w.script == [] ==> o.Go? && o.world.script == [])
  {
    RemoveStep(w, t.destination);
    var cleared := RemoveIfPresent(w, t.destination).world;
    assert At(cleared.files, t.backup) == was;
    RenameStep(cleared, t.backup, t.destination);
  }

  lemma RestoreTargetStep(h: Hash, w: World, t: Target, lag: Phase, lenient: bool, digest: string, was: Option<Tree>)
    requires SelfApart(t) && Ready(h, w.files, t, lenient, digest, was) && Lags(lag, t.phase, lenient)
    ensures var o := RestoreTarget(h, w, t, lenient, digest);
      && SameExcept(w.files, o.world.files, Slots(t))
      && Recoverable(o.world.files, t.(phase := lag), was)
      && OnlyFiles(w, o.world)
      && (o.Go? ==> Returned(o.world.files, t, was))
      && (o.Halt? ==> o.why == Io || o.why == Crash)
      && (w.script == [] ==> o.Go? && o.world.script == [])
  {
    var back := BringBack(h, w, t, lenient, digest);
    if t.phase == Prepared || t.phase == Restored {
      RenameStep(w, t.backup, t.destination);
    } else {
      PutBackStep(w, t, was);
    }
    assert At(back.world.files, t.temp) == At(w.files, t.temp);
    if back.Go? {
      RemoveStep(back.world, t.temp);
    }
  }

  // ----- restoring all targets

  /** What the destination of t held before the transaction. */
  ghost function Was(orig: Files, t: Target): Option<Tree> {
    At(orig, t.destination)
  }

  ghost predicate AllReady(h: Hash, orig: Files, files: Files, targets: seq<Target>, n: nat, lenient: bool,
      digest: string)
    requires n <= |targets|
  {
    forall i :: 0 <= i < n ==> Ready(h, files, targets[i], lenient, digest, Was(orig, targets[i]))
  }

  ghost predicate AllReturned(orig: Files, files: Files, targets: seq<Target>, n: nat)
    requires n <= |targets|
  {
    forall i :: n <= i < |targets| ==> Returned(files, targets[i], Was(orig, targets[i]))
  }

  ghost predicate AllRecoverable(orig: Files, files: Files, targets: seq<Target>) {
    && SameOutside(orig, files, targets)
    && forall i :: 0 <= i < |targets| ==> Recoverable(files, targets[i], Was(orig, targets[i]))
  }

  lemma Frame(h: Hash, f: Files, g: Files, s: Target, t: Target, lenient: bool, digest: string, was: Option<Tree>)
    requires SameExcept(f, g, Slots(s)) && Slots(s) !! Slots(t)
    ensures Ready(h, f, t, lenient, digest, was) ==> Ready(h, g, t, lenient, digest, was)
    ensures Returned(f, t, was) ==> Returned(g, t, was)
  {
    assert At(f, t.destination) == At(g, t.destination);
    assert At(f, t.temp) == At(g, t.temp);
    assert At(f, t.backup) == At(g, t.backup);
  }

  lemma LagIsRecoverable(h: Hash, files: Files, t: Target, lag: Phase, lenient: bool, digest: string, was: Option<Tree>)
    requires Lags(lag, t.phase, lenient)
    requires Ready(h, files, t, lenient, digest, was) || Returned(files, t, was)
    ensures Recoverable(files, t.(phase := lag), was)
  {
  }

  /** One restored target leaves the others ready or returned, and everything else alone. */
  lemma RestoreTargetKeepsOthers(h: Hash, w: World, targets: seq<Target>, durable: seq<Target>, n: nat,
                                 lenient: bool, digest: string, orig: Files)
    requires Apart(targets) && LaggingTargets(durable, targets, lenient) && n < |targets|
    requires AllReady(h, orig, w.files, targets, n + 1, lenient, digest) && AllReturned(orig, w.files, targets, n + 1)
    requires SameOutside(orig, w.files, targets)
    ensures var o := RestoreTarget(h, w, targets[n], lenient, digest);
      && AllReady(h, orig, o.world.files, targets, n, lenient, digest)
      && AllReturned(orig, o.world.files, targets, n + 1)
      && SameOutside(orig, o.world.files, targets)
      && Recoverable(o.world.files, durable[n], Was(orig, targets[n]))
      && (o.Go? ==> AllReturned(orig, o.world.files, targets, n))
      && OnlyFiles(w, o.world)
      && (o.Halt? ==> o.why == Io || o.why == Crash)
      && (w.script == [] ==> o.Go? && o.world.script == [])
  {
    var t := targets[n];
    var o := RestoreTarget(h, w, t, lenient, digest);
    RestoreTargetStep(h, w, t, durable[n].phase, lenient, digest, Was(orig, t));
    forall i | 0 <= i < |targets| && i != n
      ensures i < n ==> Ready(h, o.world.files, targets[i], lenient, digest, Was(orig, targets[i]))
      ensures n < i ==> Returned(o.world.files, targets[i], Was(orig, targets[i]))
    {
      assert Slots(t) !! Slots(targets[i]);
      Frame(h, w.files, o.world.files, t, targets[i], lenient, digest, Was(orig, targets[i]));
    }
    forall p | Outside(targets, p) ensures At(orig, p) == At(o.world.files, p) {
      assert p !in Slots(t);
    }
  }

  /** Between two targets: those below n still ready, target n recoverable, the ones above returned. */
  lemma HaltedIsRecoverable(h: Hash, orig: Files, files: Files, targets: seq<Target>, durable: seq<Target>, n: nat,
                            lenient: bool, digest: string)
    requires LaggingTargets(durable, targets, lenient) && n <= |targets|
    requires AllReady(h, orig, files, targets, n, lenient, digest)
    requires n < |targets| ==> Recoverable(files, durable[n], Was(orig, targets[n]))
    requires n < |targets| ==> AllReturned(orig, files, targets, n + 1)
    requires SameOutside(orig, files, targets)
    ensures AllRecoverable(orig, files, durable)
  {
    forall i | 0 <= i < |targets| ensures Recoverable(files, durable[i], Was(orig, durable[i])) {
      if i != n {
        LagIsRecoverable(h, files, targets[i], durable[i].phase, lenient, digest, Was(orig, targets[i]));
      }
    }
    SameSlots(orig, files, targets, durable, lenient);
  }

  lemma SameSlots(orig: Files, files: Files, targets: seq<Target>, durable: seq<Target>, lenient: bool)
    requires LaggingTargets(durable, targets, lenient)
    ensures SameOutside(orig, files, targets) <==> SameOutside(orig, files, durable)
  {
    assert forall i :: 0 <= i < |targets| ==> Slots(durable[i]) == Slots(targets[i]);
    assert forall p :: Outside(durable, p) <==> Outside(targets, p);
  }

  lemma ReturnedIsRecoverable(h: Hash, orig: Files, files: Files, targets: seq<Target>, durable: seq<Target>,
      lenient: bool)
    requires LaggingTargets(durable, targets, lenient)
    requires AllReturned(orig, files, targets, 0) && SameOutside(orig, files, targets)
    ensures AllRecoverable(orig, files, durable)
  {
    forall i | 0 <= i < |targets| ensures Recoverable(files, durable[i], Was(orig, durable[i])) {
      LagIsRecoverable(h, files, targets[i], durable[i].phase, lenient, "", Was(orig, targets[i]));
    }
    SameSlots(orig, files, targets, durable, lenient);
  }

  /** Restoring from a ready state: every interruption is recoverable, completion is the original state. */
  lemma {:induction false} RestoreDownKeeps(h: Hash, w: World, targets: seq<Target>, durable: seq<Target>, n: nat,
                                            lenient: bool, digest: string, orig: Files)
    requires Apart(targets) && LaggingTargets(durable, targets, lenient) && n <= |targets|
    requires AllReady(h, orig, w.files, targets, n, lenient, digest) && AllReturned(orig, w.files, targets, n)
    requires SameOutside(orig, w.files, targets)
    ensures var o := RestoreDown(h, w, targets, n, lenient, digest);
      && AllRecoverable(orig, o.world.files, durable)
      && OnlyFiles(w, o.world)
      && (o.Go? ==> AllReturned(orig, o.world.files, targets, 0) && SameOutside(orig, o.world.files, targets))
      && (o.Halt? ==> o.why == Io || o.why == Crash)
      && (w.script == [] ==> o.Go? && o.world.script == [])
    decreases n
  {
    hide RestoreTarget;
    if n == 0 {
      ReturnedIsRecoverable(h, orig, w.files, targets, durable, lenient);
    } else {
      var o := RestoreTarget(h, w, targets[n - 1], lenient, digest);
      RestoreTargetKeepsOthers(h, w, targets, durable, n - 1, lenient, digest, orig);
      if o.Go? {
        RestoreDownKeeps(h, o.world, targets, durable, n - 1, lenient, digest, orig);
      } else {
        HaltedIsRecoverable(h, orig, o.world.files, targets, durable, n - 1, lenient, digest);
      }
    }
  }
}
