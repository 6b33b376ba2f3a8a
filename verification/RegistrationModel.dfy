/** Registration of the local marketplace manifest: one file, swapped through a temp and an optional backup. */
module RegistrationModel {
  import opened Wrappers
  import opened FrozenDigest

  /** The manifest and its siblings; nonces keep temps and backups of different attempts apart. */
  datatype Slot = Manifest | Temp(nonce: nat) | Backup(nonce: nat)

  type Bytes = seq<byte>
  type Files = map<Slot, Bytes>
  type Hash = Bytes -> string

  datatype Status = Started | Committed | Aborted | RolledBack

  datatype Receipt = Receipt(
    operation: string, digest: string, version: string, status: Status, temp: Slot, backup: Option<Slot>)

  /** One step is done, fails, or is where the process dies; `residue` is a partly written temp. */
  datatype Event =
    | Done
    | Fails(residue: Option<Bytes>, stray: bool)
    | Dies(residue: Option<Bytes>, stray: bool)

  datatype World = World(
    files: Files, receipts: map<string, Receipt>, strays: nat, locked: bool, script: seq<Event>)

  datatype Error = NotFound | Conflict | Corrupt | Io | Crash

  datatype Outcome = Go(world: World) | Halt(world: World, why: Error) {
    predicate IsFailure() { Halt? }
    function PropagateFailure(): Outcome requires Halt? { this }
    function Extract(): World requires Go? { world }
  }

  function At(files: Files, s: Slot): Option<Bytes> {
    if s in files then Some(files[s]) else None
  }

  function Peek(w: World): Event {
    if w.script == [] then Done else w.script[0]
  }

  function Tick(w: World): World {
    if w.script == [] then w else w.(script := w.script[1..])
  }

  /** What a failed or fatal step that changes nothing returns. */
  function Stopped(w: World): Outcome
    requires !Peek(w).Done?
  {
    Halt(Tick(w), if Peek(w).Fails? then Io else Crash)
  }

  /** Renaming a file replaces the target. */
  function Rename(w: World, source: Slot, target: Slot): Outcome {
    if !Peek(w).Done? then Stopped(w)
    else if source !in w.files then Halt(Tick(w), Io)
    else Go(Tick(w).(files := (w.files - {source})[target := w.files[source]]))
  }

  function Remove(w: World, s: Slot): Outcome {
    if !Peek(w).Done? then Stopped(w)
    else if s !in w.files then Halt(Tick(w), Io)
    else Go(Tick(w).(files := w.files - {s}))
  }

  /** Creating a new file; a failure may leave it partly written. */
  function Create(w: World, s: Slot, content: Bytes): Outcome {
    if s in w.files then Halt(w, Io)
    else if Peek(w).Done? then Go(Tick(w).(files := w.files[s := content]))
    else
      var o := Stopped(w);
      if Peek(w).residue.Some? then Halt(o.world.(files := w.files[s := Peek(w).residue.value]), o.why) else o
  }

  function WriteReceipt(w: World, r: Receipt): Outcome {
    if Peek(w).Done? then Go(Tick(w).(receipts := w.receipts[r.operation := r]))
    else
      var o := Stopped(w);
      Halt(o.world.(strays := w.strays + if Peek(w).stray then 1 else 0), o.why)
  }

  function Lock(w: World): Outcome {
    if w.locked then Halt(w, Conflict)
    else if Peek(w).Done? then Go(Tick(w).(locked := true))
    else
      var o := Stopped(w);
      Halt(o.world.(locked := Peek(w).stray), o.why)
  }

  function Unlock(o: Outcome): Outcome {
    if o.Halt? && o.why == Crash then o else o.(world := o.world.(locked := false))
  }

  function Reboot(w: World, script: seq<Event>): World {
    w.(locked := false, script := script)
  }

  /** `let _ =`: the error of a best-effort step is dropped, a crash is not. */
  function Quietly(o: Outcome): Outcome {
    if o.Halt? && o.why != Crash then Go(o.world) else o
  }

  // ----- register

  datatype Request = Request(operation: string, version: string, manifest: Bytes, nonce: nat)

  function NewReceipt(h: Hash, files: Files, req: Request): Receipt {
    Receipt(req.operation, h(req.manifest), req.version, Started, Temp(req.nonce),
            if Manifest in files then Some(Backup(req.nonce)) else None)
  }

  /** Both renames; the first one only over an existing manifest. */
  function Swap(w: World, req: Request): Outcome {
    var saved :- if Manifest in w.files then Rename(w, Manifest, Backup(req.nonce)) else Go(w);
    Rename(saved, Temp(req.nonce), Manifest)
  }

  /** After a failed swap: best effort only, so the receipt says aborted even if the backup could not be moved back. */
  function Undo(w: World, req: Request, r: Receipt, cause: Error): Outcome {
    var cleaned :- Quietly(Remove(w, Temp(req.nonce)));
    var back :- if Backup(req.nonce) in cleaned.files && Manifest !in cleaned.files
                then Quietly(Rename(cleaned, Backup(req.nonce), Manifest)) else Go(cleaned);
    var noted :- Quietly(WriteReceipt(back, r.(status := Aborted)));
    Halt(noted, cause)
  }

  /** The swap and the last receipt; a failure of that receipt leaves the new manifest in place. */
  function SwapAndCommit(w: World, req: Request, r: Receipt): Outcome {
    var swapped := Swap(w, req);
    if swapped.Go? then WriteReceipt(swapped.world, r.(status := Committed))
    else if swapped.why == Crash then swapped
    else Undo(swapped.world, req, r, swapped.why)
  }

  function RegisterNew(h: Hash, w: World, req: Request): Outcome {
    var staged :- Create(w, Temp(req.nonce), req.manifest);
    var r := NewReceipt(h, staged.files, req);
    var noted := WriteReceipt(staged, r);
    if noted.Halt? then
      if noted.why == Crash then noted
      else
        var cleaned :- Quietly(Remove(noted.world, Temp(req.nonce)));
        Halt(cleaned, noted.why)
    else SwapAndCommit(noted.world, req, r)
  }

  function RegisterLocked(h: Hash, w: World, req: Request): Outcome {
    if req.operation in w.receipts then
      var previous := w.receipts[req.operation];
      if previous.operation != req.operation then Halt(w, Corrupt)
      else if previous.digest != h(req.manifest) || previous.version != req.version then Halt(w, Conflict)
      else if previous.status == Committed then Go(w)
      else Halt(w, Conflict)
    else RegisterNew(h, w, req)
  }

  function Register(h: Hash, w: World, req: Request): Outcome {
    var locked :- Lock(w);
    Unlock(RegisterLocked(h, locked, req))
  }

  // ----- rollback of a committed registration

  function RollbackLocked(h: Hash, w: World, r: Receipt): Outcome {
    if Manifest !in w.files then Halt(w, Io)
    else if h(w.files[Manifest]) != r.digest then Halt(w, Conflict)
    else
      var removed :- Remove(w, Manifest);
      var back :- if r.backup.Some? && r.backup.value in removed.files
                  then Rename(removed, r.backup.value, Manifest) else Go(removed);
      WriteReceipt(back, r.(status := RolledBack))
  }

  function Rollback(h: Hash, w: World, operation: string): Outcome {
    if operation !in w.receipts then Halt(w, NotFound)
    else
      var r := w.receipts[operation];
      if r.status != Committed then Halt(w, Conflict)
      else
        var locked :- Lock(w);
        Unlock(if r.operation != operation then Halt(locked, Corrupt) else RollbackLocked(h, locked, r))
  }

  // ----- reconcile

  function RecoverLocked(h: Hash, w: World, r: Receipt): Outcome {
    if Manifest in w.files && h(w.files[Manifest]) != r.digest then Halt(w, Conflict)
    else
      var cleared :- if Manifest in w.files then Remove(w, Manifest) else Go(w);
      var cleaned :- if r.temp in cleared.files then Remove(cleared, r.temp) else Go(cleared);
      var back :- if r.backup.Some? && r.backup.value in cleaned.files && Manifest !in cleaned.files
                  then Rename(cleaned, r.backup.value, Manifest) else Go(cleaned);
      WriteReceipt(back, r.(status := Aborted))
  }

  function Recover(h: Hash, w: World, operation: string): Outcome {
    if operation !in w.receipts || w.receipts[operation].operation != operation then Halt(w, Corrupt)
    else if w.receipts[operation].status != Started then Go(w)
    else
      var locked :- Lock(w);
      Unlock(RecoverLocked(h, locked, w.receipts[operation]))
  }

  function ReconcileFrom(h: Hash, w: World, listing: seq<string>): Outcome
    decreases |listing|
  {
    if listing == [] then Go(w)
    else
      var next :- Recover(h, w, listing[0]);
      ReconcileFrom(h, next, listing[1..])
  }

  const MAX_RECEIPTS := 256

  function Reconcile(h: Hash, w: World, listing: seq<string>): Outcome {
    if w.strays > 0 || |listing| > MAX_RECEIPTS then Halt(w, Corrupt) else ReconcileFrom(h, w, listing)
  }
}
