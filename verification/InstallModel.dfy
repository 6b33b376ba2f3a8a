/**
 The crash-recoverable multi-target install transaction, as functions on a world.

 Every input/output step consumes one event of the world's script: it is done, it fails and is
 reported, or the process dies there.  An exhausted script means that all further steps are done.
 */
module InstallModel {
  import opened Wrappers
  import opened FrozenDigest

  const MAX_TARGETS := 64
  const MAX_RECEIPTS := 256

  /** Destinations are places; temps and backups are siblings whose names carry operation, nonce and index. */
  datatype Path =
    | Place(parent: string, name: string)
    | Temp(parent: string, operation: string, nonce: nat, index: nat)
    | Backup(parent: string, operation: string, nonce: nat, index: nat)

  /** What can stand at a path: a directory the package loader accepts (with details it ignores), or anything else. */
  datatype Tree =
    | Directory(files: seq<FrozenFile>, ignored: string)
    | Unloadable(content: string)

  type Files = map<Path, Tree>
  type Hash = seq<byte> -> string

  function At(files: Files, p: Path): Option<Tree> {
    if p in files then Some(files[p]) else None
  }

  predicate HasDigest(h: Hash, tree: Tree, digest: string) {
    tree.Directory? && h(Framed(tree.files)) == digest
  }

  // ----- receipts

  datatype Phase = Prepared | BackedUp | Swapped | Restored
  datatype Status = Started | Committed | Aborted

  datatype Target = Target(destination: Path, temp: Path, backup: Path, phase: Phase)

  datatype Receipt = Receipt(
    operation: string, digest: string, status: Status,
    destinations: seq<Path>, backups: seq<Path>, count: nat, targets: seq<Target>)

  predicate ValidTarget(r: Receipt, i: nat)
    requires i < |r.targets| == |r.destinations| == |r.backups|
  {
    && r.destinations[i] == r.targets[i].destination
    && r.backups[i] == r.targets[i].backup
    && (r.status == Committed ==> r.targets[i].phase == Swapped)
    && (r.status == Aborted ==> r.targets[i].phase == Restored)
  }

  /** What `validate_native_receipt` accepts for the receipt file of `operation`. */
  predicate ValidReceipt(r: Receipt, operation: string) {
    && 0 < r.count <= MAX_TARGETS
    && r.count == |r.destinations| == |r.backups| == |r.targets|
    && r.operation == operation
    && forall i :: 0 <= i < |r.targets| ==> ValidTarget(r, i)
  }

  function SetPhase(r: Receipt, i: nat, phase: Phase): Receipt
    requires i < |r.targets|
  {
    r.(targets := r.targets[i := r.targets[i].(phase := phase)])
  }

  function AllRestored(targets: seq<Target>): (r: seq<Target>)
    ensures |r| == |targets|
    ensures forall i :: 0 <= i < |targets| ==> r[i] == targets[i].(phase := Restored)
  {
    seq(|targets|, i requires 0 <= i < |targets| => targets[i].(phase := Restored))
  }

  /** The receipt of a transaction that has been undone. */
  function Closed(r: Receipt): Receipt {
    r.(status := Aborted, targets := AllRestored(r.targets))
  }

  // ----- the world and its steps

  /** `residue` is what a copy or deletion leaves behind when it stops half-way, `stray` says whether an
      interrupted receipt write or lock acquisition leaves its temporary entry behind. */
  datatype Event =
    | Done
    | Fails(residue: Option<Tree>, stray: bool)
    | Dies(residue: Option<Tree>, stray: bool)

  datatype Deletion = Deletion(path: Path, tree: Tree)

  /** `strays` counts unfinished receipt files in the transaction directory; `deleted` logs begun deletions. */
  datatype World = World(
    files: Files, receipts: map<string, Receipt>, strays: nat, locked: bool,
    script: seq<Event>, deleted: seq<Deletion>)

  datatype Error = InvalidManifest | NotFound | UnsafePath | Conflict | Corrupt | Io | Crash

  datatype Outcome = Go(world: World) | Halt(world: World, why: Error) {
    predicate IsFailure() { Halt? }
    function PropagateFailure(): Outcome requires Halt? { this }
    function Extract(): World requires Go? { world }
  }

  function Peek(w: World): Event {
    if w.script == [] then Done else w.script[0]
  }

  function Tick(w: World): World {
    if w.script == [] then w else w.(script := w.script[1..])
  }

  function Settle(files: Files, p: Path, content: Option<Tree>): Files {
    match content
    case None => files - {p}
    case Some(tree) => files[p := tree]
  }

  /** An atomic rename onto a free path. */
  function Rename(w: World, source: Path, target: Path): Outcome {
    match Peek(w)
    case Done =>
      if source in w.files && target !in w.files then
        Go(Tick(w).(files := (w.files - {source})[target := w.files[source]]))
      else
        Halt(Tick(w), Io)
    case Fails(_, _) => Halt(Tick(w), Io)
    case Dies(_, _) => Halt(Tick(w), Crash)
  }

  /** Recursive deletion: not atomic, so an interruption leaves an arbitrary residue. */
  function Remove(w: World, p: Path): Outcome
    requires p in w.files
  {
    var next := Tick(w).(deleted := w.deleted + [Deletion(p, w.files[p])]);
    match Peek(w)
    case Done => Go(next.(files := w.files - {p}))
    case Fails(residue, _) => Halt(next.(files := Settle(w.files, p, residue)), Io)
    case Dies(residue, _) => Halt(next.(files := Settle(w.files, p, residue)), Crash)
  }

  function RemoveIfPresent(w: World, p: Path): Outcome {
    if p in w.files then Remove(w, p) else Go(w)
  }

  /** Deletion whose error is ignored; only a crash stops it. */
  function RemoveQuietly(w: World, p: Path): Outcome {
    var o := RemoveIfPresent(w, p);
    if o.Halt? && o.why != Crash then Go(o.world) else o
  }

  function CopyPackage(w: World, p: Path, files: seq<FrozenFile>): Outcome {
    match Peek(w)
    case Done => Go(Tick(w).(files := w.files[p := Directory(files, "")]))
    case Fails(residue, _) => Halt(Tick(w).(files := Settle(w.files, p, residue)), Io)
    case Dies(residue, _) => Halt(Tick(w).(files := Settle(w.files, p, residue)), Crash)
  }

  /** Write to a fresh sibling, then rename over the receipt: the receipt itself changes atomically. */
  function WriteReceipt(w: World, r: Receipt): Outcome {
    match Peek(w)
    case Done => Go(Tick(w).(receipts := w.receipts[r.operation := r]))
    case Fails(_, stray) => Halt(Tick(w).(strays := w.strays + if stray then 1 else 0), Io)
    case Dies(_, stray) => Halt(Tick(w).(strays := w.strays + if stray then 1 else 0), Crash)
  }

  /** Creating the lock directory; the owner file is written afterwards and can fail with the lock in place. */
  function Lock(w: World): Outcome {
    if w.locked then Halt(w, Conflict) else
    match Peek(w)
    case Done => Go(Tick(w).(locked := true))
    case Fails(_, stray) => Halt(Tick(w).(locked := stray), Io)
    case Dies(_, stray) => Halt(Tick(w).(locked := stray), Crash)
  }

  /** Leaving the scope of the lock guard; a dead process does not leave it. */
  function Unlock(o: Outcome): Outcome {
    if o.Halt? && o.why == Crash then o else o.(world := o.world.(locked := false))
  }

  /** A new process after a crash, with the left-over lock cleared, meeting the events of `script`. */
  function Reboot(w: World, script: seq<Event>): World {
    w.(locked := false, script := script)
  }

  // ----- restoring targets

  /** The phase-dependent part of restoring one target. */
  function BringBack(h: Hash, w: World, t: Target, lenient: bool, digest: string): Outcome {
    match t.phase
    case Prepared =>
      if t.destination in w.files && t.backup in w.files then Halt(w, Conflict)
      else if t.backup in w.files then Rename(w, t.backup, t.destination)
      else Go(w)
    case BackedUp =>
      if t.destination in w.files && !lenient then Halt(w, Conflict) else PutBack(w, t)
    case Swapped =>
      if t.temp in w.files then Halt(w, Conflict)
      else if t.destination in w.files && !HasDigest(h, w.files[t.destination], digest) then Halt(w, Conflict)
      else PutBack(w, t)
    case Restored => Go(w)
  }

  function RestoreTarget(h: Hash, w: World, t: Target, lenient: bool, digest: string): Outcome {
    var back :- BringBack(h, w, t, lenient, digest);
    RemoveIfPresent(back, t.temp)
  }

  /** Delete the destination if it exists, then bring the backup home if there is one. */
  function PutBack(w: World, t: Target): Outcome {
    var cleared :- RemoveIfPresent(w, t.destination);
    if t.backup in cleared.files then Rename(cleared, t.backup, t.destination) else Go(cleared)
  }

  /** Restores targets n-1, ..., 0. */
  function RestoreDown(h: Hash, w: World, targets: seq<Target>, n: nat, lenient: bool, digest: string): Outcome
    requires n <= |targets|
    decreases n
  {
    if n == 0 then Go(w)
    else
      var next :- RestoreTarget(h, w, targets[n - 1], lenient, digest);
      RestoreDown(h, next, targets, n - 1, lenient, digest)
  }

  /** The read-only test that `restore_native_targets_checked` makes of one target. */
  predicate Acceptable(h: Hash, files: Files, t: Target, digest: string) {
    match t.phase
    case Prepared => !(t.destination in files && t.backup in files)
    case Restored => true
    case _ => t.destination in files ==> t.temp !in files && HasDigest(h, files[t.destination], digest)
  }

  predicate AllAcceptable(h: Hash, files: Files, r: Receipt) {
    forall i :: 0 <= i < |r.targets| ==> Acceptable(h, files, r.targets[i], r.digest)
  }

  // ----- install

  datatype Request = Request(operation: string, nonce: nat, package: seq<FrozenFile>, destinations: seq<Path>)

  function PackageDigest(h: Hash, req: Request): string {
    h(Framed(req.package))
  }

  function MakeTarget(req: Request, i: nat): Target
    requires i < |req.destinations|
  {
    var d := req.destinations[i];
    Target(d, Temp(d.parent, req.operation, req.nonce, i), Backup(d.parent, req.operation, req.nonce, i), Prepared)
  }

  predicate Distinct(ds: seq<Path>) {
    forall i, j :: 0 <= i < j < |ds| ==> ds[i] != ds[j]
  }

  function RemoveTemps(w: World, targets: seq<Target>): Outcome
    decreases |targets|
  {
    if targets == [] then Go(w)
    else
      var next :- RemoveQuietly(w, targets[0].temp);
      RemoveTemps(next, targets[1..])
  }

  /** After a failed step: drop the staged temps, then report the failure. */
  function DropTemps(o: Outcome, targets: seq<Target>): Outcome
    requires o.Halt?
  {
    if o.why == Crash then o
    else
      var cleaned :- RemoveTemps(o.world, targets);
      Halt(cleaned, o.why)
  }

  /** Copies the package to the temps of targets |staged|, |staged|+1, ...  The sequence holds the staged targets. */
  function StageFrom(w: World, req: Request, staged: seq<Target>): (r: (Outcome, seq<Target>))
    requires |staged| <= |req.destinations|
    ensures r.0.Go? ==> |r.1| == |req.destinations|
    decreases |req.destinations| - |staged|
  {
    if |staged| == |req.destinations| then (Go(w), staged)
    else
      var t := MakeTarget(req, |staged|);
      if t.temp in w.files || t.backup in w.files then (Halt(w, Conflict), staged)
      else
        var copied := CopyPackage(w, t.temp, req.package);
        if copied.Halt? then (DropTemps(copied, staged + [t]), staged)
        else StageFrom(copied.world, req, staged + [t])
  }

  function NewReceipt(h: Hash, req: Request, targets: seq<Target>): Receipt
    requires |targets| == |req.destinations|
  {
    Receipt(req.operation, PackageDigest(h, req), Started, req.destinations,
            seq(|targets|, i requires 0 <= i < |targets| => targets[i].backup), |targets|, targets)
  }

  /** One target: destination to backup, receipt, temp to destination, receipt.  Also yields the receipt in memory. */
  function SwapTarget(w: World, r: Receipt, i: nat): (Outcome, Receipt)
    requires i < |r.targets|
  {
    var t := r.targets[i];
    var saved := if t.destination in w.files then Rename(w, t.destination, t.backup) else Go(w);
    if saved.Halt? then (saved, r) else
    var backedUp := SetPhase(r, i, BackedUp);
    var noted := WriteReceipt(saved.world, backedUp);
    if noted.Halt? then (noted, backedUp) else
    var moved := Rename(noted.world, t.temp, t.destination);
    if moved.Halt? then (moved, backedUp) else
    var swapped := SetPhase(backedUp, i, Swapped);
    (WriteReceipt(moved.world, swapped), swapped)
  }

  function SwapFrom(w: World, r: Receipt, i: nat): (Outcome, Receipt)
    requires i <= |r.targets|
    decreases |r.targets| - i
  {
    if i == |r.targets| then (Go(w), r)
    else
      var (o, live) := SwapTarget(w, r, i);
      if o.Halt? then (o, live) else SwapFrom(o.world, live, i + 1)
  }

  /** In-process undo under the strict policy, then the aborted receipt; the first error is what the caller sees. */
  function AbortInstall(h: Hash, w: World, live: Receipt, cause: Error): Outcome {
    var restored :- RestoreDown(h, w, live.targets, |live.targets|, false, live.digest);
    var written :- WriteReceipt(restored, Closed(live));
    Halt(written, cause)
  }

  /** The swap loop over staged targets, up to the committed or aborted receipt. */
  function SwapAll(h: Hash, w: World, r: Receipt): Outcome {
    var (o, live) := SwapFrom(w, r, 0);
    if o.Go? then WriteReceipt(o.world, live.(status := Committed))
    else if o.why == Crash then o
    else AbortInstall(h, o.world, live, o.why)
  }

  function InstallStaged(h: Hash, w: World, req: Request, targets: seq<Target>): Outcome
    requires |targets| == |req.destinations|
  {
    var r := NewReceipt(h, req, targets);
    var noted := WriteReceipt(w, r);
    if noted.Halt? then DropTemps(noted, targets) else SwapAll(h, noted.world, r)
  }

  predicate Retryable(r: Receipt) {
    r.status == Aborted && r.targets != [] && forall i :: 0 <= i < |r.targets| ==> r.targets[i].phase == Restored
  }

  function InstallFresh(h: Hash, w: World, req: Request): Outcome {
    if !Distinct(req.destinations) then Halt(w, UnsafePath)
    else
      var (o, targets) := StageFrom(w, req, []);
      if o.Halt? then o else InstallStaged(h, o.world, req, targets)
  }

  function InstallLocked(h: Hash, w: World, req: Request): Outcome {
    if req.operation in w.receipts then
      var previous := w.receipts[req.operation];
      if !ValidReceipt(previous, req.operation) then Halt(w, Corrupt)
      else if previous.digest != PackageDigest(h, req) then Halt(w, Conflict)
      else if previous.status == Committed then Go(w)
      else if !Retryable(previous) then Halt(w, Conflict)
      else InstallFresh(h, w, req)
    else
      InstallFresh(h, w, req)
  }

  function Install(h: Hash, w: World, req: Request): Outcome {
    if !(0 < |req.destinations| <= MAX_TARGETS) then Halt(w, InvalidManifest)
    else
      var locked :- Lock(w);
      Unlock(InstallLocked(h, locked, req))
  }

  // ----- rollback and reconcile

  function RollbackLocked(h: Hash, w: World, r: Receipt): Outcome {
    if r.status == Aborted then Go(w)
    else if !AllAcceptable(h, w.files, r) then Halt(w, Conflict)
    else
      var restored :- RestoreDown(h, w, r.targets, |r.targets|, true, r.digest);
      WriteReceipt(restored, Closed(r))
  }

  function Rollback(h: Hash, w: World, operation: string): Outcome {
    if operation !in w.receipts then Halt(w, NotFound)
    else
      var r := w.receipts[operation];
      if r.operation != operation then Halt(w, Corrupt)
      else
        var locked :- Lock(w);
        Unlock(RollbackLocked(h, locked, r))
  }

  function ReconcileFrom(h: Hash, w: World, listing: seq<string>): Outcome
    decreases |listing|
  {
    if listing == [] then Go(w)
    else
      var operation := listing[0];
      if operation !in w.receipts || !ValidReceipt(w.receipts[operation], operation) then Halt(w, Corrupt)
      else
        var next :- if w.receipts[operation].status == Started then Rollback(h, w, operation) else Go(w);
        ReconcileFrom(h, next, listing[1..])
  }

  /** `listing` is the sorted list of the receipt files found in the transaction directory. */
  function Reconcile(h: Hash, w: World, listing: seq<string>): Outcome {
    if w.strays > 0 || |listing| > MAX_RECEIPTS then Halt(w, Corrupt)
    else ReconcileFrom(h, w, listing)
  }
}
