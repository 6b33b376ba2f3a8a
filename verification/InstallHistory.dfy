/** Whole histories of fault-free installs and rollbacks over overlapping destinations, in any order. */
module InstallHistory {
  import opened Wrappers
  import opened InstallModel
  import opened RestoreProofs
  import opened SwapProofs
  import opened InstallTheorems
  import opened InstallReceipts

  // ----- layers: what one committed install does to the files

  ghost predicate OwnBackup(req: Request, p: Path) {
    && p.Backup? && p.operation == req.operation && p.nonce == req.nonce
    && p.index < |req.destinations| && p.parent == req.destinations[p.index].parent
  }

  ghost function LaidAt(files: Files, req: Request, p: Path): Option<Tree> {
    if p in req.destinations then Some(PackageTree(req.package))
    else if OwnBackup(req, p) then At(files, req.destinations[p.index])
    else At(files, p)
  }

  ghost function Touched(req: Request): set<Path> {
    (set i | 0 <= i < |req.destinations| :: req.destinations[i])
      + (set i | 0 <= i < |req.destinations| :: Plan(req)[i].backup)
  }

  /** One layer: the package at every destination, the trees beneath in the backups. */
  ghost function Lay(files: Files, req: Request): (g: Files)
    ensures forall p :: At(g, p) == LaidAt(files, req, p)
  {
    assert forall p | OwnBackup(req, p) :: p == Plan(req)[p.index].backup;
    map p | p in files.Keys + Touched(req) && LaidAt(files, req, p).Some? :: LaidAt(files, req, p).value
  }

  ghost function LayAll(base: Files, stack: seq<Request>): Files {
    if stack == [] then base else Lay(LayAll(base, stack[..|stack| - 1]), stack[|stack| - 1])
  }

  ghost predicate Sane(req: Request) {
    Proper(req) && 0 < |req.destinations| <= MAX_TARGETS && Distinct(req.destinations)
  }

  ghost function SwappedPlan(req: Request): (targets: seq<Target>)
    ensures |targets| == |req.destinations|
    ensures forall i :: 0 <= i < |targets| ==> targets[i] == MakeTarget(req, i).(phase := Swapped)
  {
    seq(|req.destinations|, i requires 0 <= i < |req.destinations| => MakeTarget(req, i).(phase := Swapped))
  }

  /** f is g with the layer of req on top. */
  ghost predicate Over(f: Files, g: Files, req: Request) {
    Clean(g, SwappedPlan(req)) && Installed(g, f, SwappedPlan(req), PackageTree(req.package))
  }

  ghost predicate Disjoint(r: Request, s: Request) {
    r.operation != s.operation && forall d :: d in r.destinations ==> d !in s.destinations
  }

  lemma LayIsOver(g: Files, req: Request)
    requires Sane(req) && Clean(g, SwappedPlan(req))
    ensures Over(Lay(g, req), g, req)
  {
    var f := Lay(g, req);
    var targets := SwappedPlan(req);
    forall i | 0 <= i < |targets| ensures InFlight(f, targets[i], PackageTree(req.package), Was(g, targets[i])) {
      assert req.destinations[i] in req.destinations;
      assert At(f, targets[i].backup) == LaidAt(g, req, targets[i].backup);
      assert At(f, targets[i].temp) == LaidAt(g, req, targets[i].temp);
      assert At(f, targets[i].destination) == LaidAt(g, req, targets[i].destination);
    }
    OutsidePlan(req);
    assert forall p :: Outside(targets, p) ==> At(f, p) == LaidAt(g, req, p);
  }

  /** The paths outside the plan are those the layer does not mention. */
  lemma OutsidePlan(req: Request)
    ensures forall p :: Outside(SwappedPlan(req), p) ==> p !in req.destinations && !OwnBackup(req, p)
  {
    var targets := SwappedPlan(req);
    forall p | p in req.destinations || OwnBackup(req, p) ensures !Outside(targets, p) {
      var i :| 0 <= i < |targets| && (p == req.destinations[i] || p == targets[i].backup);
      assert p in Slots(targets[i]);
    }
  }

  /** A layer s over both keeps r between them, if s shares no destination with r. */
  lemma LayKeepsOver(f: Files, g: Files, r: Request, s: Request)
    requires Sane(r) && Sane(s) && Disjoint(r, s) && Over(f, g, r)
    ensures Over(Lay(f, s), Lay(g, s), r)
  {
    var f', g', targets := Lay(f, s), Lay(g, s), SwappedPlan(r);
    forall i | 0 <= i < |targets|
      ensures InFlight(f', targets[i], PackageTree(r.package), Was(g', targets[i]))
      ensures targets[i].temp !in g' && targets[i].backup !in g'
    {
      LayKeepsTarget(f, g, r, s, i);
    }
    LayKeepsOutside(f, g, r, s);
    hide InFlight;
    hide Lay;
  }

  /** The own slots of a target of r look the same below and above a layer over other destinations. */
  lemma LayKeepsTarget(f: Files, g: Files, r: Request, s: Request, i: nat)
    requires Sane(r) && Sane(s) && Disjoint(r, s) && i < |r.destinations|
    requires var t := SwappedPlan(r)[i];
      InFlight(f, t, PackageTree(r.package), Was(g, t)) && t.temp !in g && t.backup !in g
    ensures var t := SwappedPlan(r)[i];
      && InFlight(Lay(f, s), t, PackageTree(r.package), Was(Lay(g, s), t)) && t.temp !in Lay(g, s)
        && t.backup !in Lay(g, s)
  {
    var f', g', t := Lay(f, s), Lay(g, s), SwappedPlan(r)[i];
    assert t.destination in r.destinations;
    assert At(f', t.backup) == LaidAt(f, s, t.backup) && At(g', t.backup) == LaidAt(g, s, t.backup);
    assert At(f', t.temp) == LaidAt(f, s, t.temp) && At(g', t.temp) == LaidAt(g, s, t.temp);
    assert At(f', t.destination) == LaidAt(f, s, t.destination) && At(g', t.destination) == LaidAt(g, s, t.destination);
    hide Lay;
  }

  lemma LayKeepsOutside(f: Files, g: Files, r: Request, s: Request)
    requires Sane(r) && Sane(s) && Disjoint(r, s) && SameOutside(g, f, SwappedPlan(r))
    ensures SameOutside(Lay(g, s), Lay(f, s), SwappedPlan(r))
  {
    var f', g', targets := Lay(f, s), Lay(g, s), SwappedPlan(r);
    forall p | Outside(targets, p) ensures At(g', p) == At(f', p) {
      assert At(f', p) == LaidAt(f, s, p) && At(g', p) == LaidAt(g, s, p);
      if OwnBackup(s, p) {
        var d := s.destinations[p.index];
        assert d in s.destinations;
        assert Outside(targets, d);
      }
    }
  }

  // ----- stacks of layers

  ghost predicate SaneStack(stack: seq<Request>) {
    && (forall i :: 0 <= i < |stack| ==> Sane(stack[i]))
    && forall i, j :: 0 <= i < j < |stack| ==> stack[i].operation != stack[j].operation
  }

  /** A map without any temp or backup. */
  ghost predicate Tidy(base: Files) {
    forall p :: p in base ==> p.Place?
  }

  ghost predicate Buried(stack: seq<Request>, k: nat)
    requires k < |stack|
  {
    exists j :: k < j < |stack| && !Disjoint(stack[k], stack[j])
  }

  ghost function Without(stack: seq<Request>, k: nat): seq<Request>
    requires k < |stack|
  {
    stack[..k] + stack[k + 1..]
  }

  /** Backups belong to operations of the stack, and there are no temps. */
  lemma {:induction false} StackNames(base: Files, stack: seq<Request>)
    requires Tidy(base)
    requires forall i :: 0 <= i < |stack| ==> Sane(stack[i])
    ensures forall p :: p in LayAll(base, stack) ==>
              p.Place? || (p.Backup? && exists i :: 0 <= i < |stack| && p.operation == stack[i].operation)
    decreases |stack|
  {
    if stack != [] {
      var n := |stack| - 1;
      var below := LayAll(base, stack[..n]);
      StackNames(base, stack[..n]);
      var files := Lay(below, stack[n]);
      forall p | p in files
        ensures p.Place? || (p.Backup? && exists i :: 0 <= i < |stack| && p.operation == stack[i].operation)
      {
        assert At(files, p) == LaidAt(below, stack[n], p);
        if p !in stack[n].destinations && !OwnBackup(stack[n], p) {
          assert p in below;
          if !p.Place? {
            var i :| 0 <= i < n && p.operation == stack[..n][i].operation;
            assert p.operation == stack[i].operation;
          }
        }
      }
    }
  }

  lemma StackIsClean(base: Files, stack: seq<Request>, req: Request)
    requires Tidy(base) && forall i :: 0 <= i < |stack| ==> Sane(stack[i])
    requires forall i :: 0 <= i < |stack| ==> stack[i].operation != req.operation
    ensures Clean(LayAll(base, stack), SwappedPlan(req)) && Clean(LayAll(base, stack), Plan(req))
  {
    StackNames(base, stack);
    hide LayAll;
  }

  lemma LayAllTop(base: Files, stack: seq<Request>)
    requires stack != []
    ensures LayAll(base, stack) == Lay(LayAll(base, stack[..|stack| - 1]), stack[|stack| - 1])
  {
  }

  lemma WithoutBelowTop(stack: seq<Request>, k: nat)
    requires k < |stack| - 1
    ensures var n := |stack| - 1;
      Without(stack, k)[..n - 1] == Without(stack[..n], k) && Without(stack, k)[n - 1] == stack[n]
  {
  }

  /** Taking out a layer that nothing above shares a destination with. */
  lemma {:induction false} LayerIsOver(base: Files, stack: seq<Request>, k: nat)
    requires Tidy(base) && SaneStack(stack) && k < |stack| && !Buried(stack, k)
    ensures Over(LayAll(base, stack), LayAll(base, Without(stack, k)), stack[k])
    decreases |stack|
  {
    hide Over;
    hide Lay;
    hide Sane;
    var n := |stack| - 1;
    var below := stack[..n];
    LayAllTop(base, stack);
    if k == n {
      assert Without(stack, k) == below;
      StackIsClean(base, below, stack[n]);
      LayIsOver(LayAll(base, below), stack[n]);
    } else {
      assert !Buried(below, k) by {
        assert forall j :: k < j < n ==> below[j] == stack[j];
      }
      LayerIsOver(base, below, k);
      assert Disjoint(stack[k], stack[n]);
      WithoutBelowTop(stack, k);
      LayAllTop(base, Without(stack, k));
      LayKeepsOver(LayAll(base, below), LayAll(base, Without(below, k)), stack[k], stack[n]);
    }
  }

  /** The tree at a destination belongs to the last layer that mentions it. */
  lemma {:induction false} TopOfDestination(base: Files, stack: seq<Request>, k: nat, j: nat, d: Path)
      returns (top: nat)
    requires k < j < |stack| && d in stack[j].destinations
    requires forall i :: 0 <= i < |stack| ==> Sane(stack[i])
    ensures k < top < |stack| && At(LayAll(base, stack), d) == Some(PackageTree(stack[top].package))
    decreases |stack|
  {
    var n := |stack| - 1;
    var below := LayAll(base, stack[..n]);
    assert At(LayAll(base, stack), d) == LaidAt(below, stack[n], d);
    if d in stack[n].destinations {
      top := n;
    } else {
      top := TopOfDestination(base, stack[..n], k, j, d);
      var i :| 0 <= i < |stack[j].destinations| && stack[j].destinations[i] == d;
      assert d.Place?;
    }
  }

  // ----- the world behind a stack

  ghost function CommittedReceipt(h: Hash, req: Request): Receipt {
    PlanReceipt(h, req).(status := Committed, targets := SwappedPlan(req))
  }

  ghost predicate InStack(stack: seq<Request>, operation: string) {
    exists i :: 0 <= i < |stack| && stack[i].operation == operation
  }

  /** Receipts of the stack are committed, all others are valid and aborted. */
  ghost predicate ReceiptsMatch(h: Hash, receipts: map<string, Receipt>, stack: seq<Request>) {
    && (forall i :: 0 <= i < |stack| ==>
          stack[i].operation in receipts && receipts[stack[i].operation] == CommittedReceipt(h, stack[i]))
    && forall op :: op in receipts && !InStack(stack, op) ==>
      ValidReceipt(receipts[op], op) && receipts[op].status == Aborted
  }

  /** The files are the base with the committed layers on top, in commit order. */
  ghost predicate Layered(h: Hash, base: Files, w: World, stack: seq<Request>) {
    && Tidy(base) && SaneStack(stack) && w.files == LayAll(base, stack) && ReceiptsMatch(h, w.receipts, stack)
    && w.script == [] && !w.locked
  }

  lemma CommittedReceiptIsValid(h: Hash, req: Request)
    requires Sane(req)
    ensures ValidReceipt(CommittedReceipt(h, req), req.operation)
  {
  }

  lemma SameMap(f: Files, g: Files)
    requires forall p :: At(f, p) == At(g, p)
    ensures f == g
  {
    assert forall p :: p in f <==> At(f, p).Some?;
    assert forall p :: p in g <==> At(g, p).Some?;
  }

  lemma SlotsDetermined(f: Files, f': Files, t: Target, tree: Tree, was: Option<Tree>, p: Path)
    requires t.phase == Swapped && p in Slots(t) && InFlight(f, t, tree, was) && InFlight(f', t, tree, was)
    ensures At(f, p) == At(f', p)
  {
  }

  lemma OverIsUnique(f: Files, f': Files, g: Files, req: Request)
    requires Over(f, g, req) && Over(f', g, req)
    ensures f == f'
  {
    var targets := SwappedPlan(req);
    var tree := PackageTree(req.package);
    assert forall i :: 0 <= i < |targets| ==>
      InFlight(f, targets[i], tree, Was(g, targets[i])) && InFlight(f', targets[i], tree, Was(g, targets[i]));
    hide InFlight;
    forall p ensures At(f, p) == At(f', p) {
      if Outside(targets, p) {
        assert At(g, p) == At(f, p) && At(g, p) == At(f', p);
      } else {
        var i :| 0 <= i < |targets| && p in Slots(targets[i]);
        SlotsDetermined(f, f', targets[i], tree, Was(g, targets[i]), p);
      }
    }
    SameMap(f, f');
  }

  /** A committed install is one more layer. */
  lemma InstalledIsLay(g: Files, f: Files, req: Request)
    requires Sane(req) && Over(f, g, req)
    ensures f == Lay(g, req)
  {
    assert Clean(g, SwappedPlan(req));
    LayIsOver(g, req);
    OverIsUnique(f, Lay(g, req), g, req);
  }

  /** The conditions under which the source starts a transaction for a request. */
  ghost predicate Admitted(h: Hash, w: World, req: Request) {
    && 0 < |req.destinations| <= MAX_TARGETS && Distinct(req.destinations)
    && (req.operation in w.receipts ==>
          w.receipts[req.operation].status == Aborted && w.receipts[req.operation].digest == PackageDigest(h, req))
  }

  lemma AdmittedCommits(h: Hash, base: Files, w: World, stack: seq<Request>, req: Request)
    requires Layered(h, base, w, stack) && Proper(req) && Admitted(h, w, req)
    ensures var o := Install(h, w, req);
      && o.Go? && o.world.files == LayAll(base, stack + [req])
      && o.world.receipts == w.receipts[req.operation := CommittedReceipt(h, req)]
      && o.world.script == [] && !o.world.locked
  {
    assert !InStack(stack, req.operation);
    StackIsClean(base, stack, req);
    if req.operation in w.receipts {
      AbortedIsRetryable(w.receipts[req.operation], req.operation);
    }
    assert Startable(h, w, req);
    InstallEnds(h, w, req);
    var o := Install(h, w, req);
    hide Install;
    hide CleanCrash;
    hide Startable;
    var d := o.world.receipts[req.operation];
    assert Installed(w.files, o.world.files, d.targets, PackageTree(req.package));
    assert d.targets == SwappedPlan(req);
    assert Over(o.world.files, w.files, req);
    InstalledIsLay(w.files, o.world.files, req);
    assert (stack + [req])[..|stack|] == stack;
    LayAllTop(base, stack + [req]);
  }

  lemma AbortedIsRetryable(r: Receipt, operation: string)
    requires ValidReceipt(r, operation) && r.status == Aborted
    ensures Retryable(r)
  {
    forall i | 0 <= i < |r.targets| ensures r.targets[i].phase == Restored {
      assert ValidTarget(r, i);
    }
  }

  // ----- steps of a history

  ghost function Pushed(h: Hash, w: World, stack: seq<Request>, req: Request): seq<Request> {
    if Admitted(h, w, req) then stack + [req] else stack
  }

  /** The position of the live layer of an operation, or the height of the stack. */
  ghost function Position(stack: seq<Request>, operation: string): (k: nat)
    ensures k <= |stack|
    ensures k < |stack| ==> stack[k].operation == operation
    ensures k == |stack| ==> !InStack(stack, operation)
    decreases |stack|
  {
    if stack == [] then 0
    else if stack[|stack| - 1].operation == operation then |stack| - 1
    else
      var k := Position(stack[..|stack| - 1], operation);
      if k == |stack| - 1 then |stack| else k
  }

  ghost function Popped(stack: seq<Request>, operation: string): seq<Request> {
    var k := Position(stack, operation);
    if k < |stack| && !Buried(stack, k) then Without(stack, k) else stack
  }

  lemma PushKeepsMatch(h: Hash, receipts: map<string, Receipt>, stack: seq<Request>, req: Request)
    requires SaneStack(stack) && ReceiptsMatch(h, receipts, stack) && Sane(req) && !InStack(stack, req.operation)
    ensures SaneStack(stack + [req])
    ensures ReceiptsMatch(h, receipts[req.operation := CommittedReceipt(h, req)], stack + [req])
  {
    hide CommittedReceipt;
    hide ValidReceipt;
    hide Sane;
    PushInStack(stack, req);
    hide InStack;
  }

  lemma PushInStack(stack: seq<Request>, req: Request)
    requires !InStack(stack, req.operation)
    ensures forall op :: InStack(stack + [req], op) <==> InStack(stack, op) || op == req.operation
    ensures forall i :: 0 <= i < |stack| ==> stack[i].operation != req.operation
  {
    var up := stack + [req];
    assert up[|stack|] == req;
    assert forall i :: 0 <= i < |stack| ==> up[i] == stack[i];
  }

  /** An install either adds its layer or changes no file and no receipt. */
  lemma DoStep(h: Hash, base: Files, w: World, stack: seq<Request>, req: Request)
    requires Layered(h, base, w, stack) && Proper(req)
    ensures var o := Install(h, w, req);
      && Layered(h, base, o.world, Pushed(h, w, stack, req))
      && (!Admitted(h, w, req) ==> o.world == w)
  {
    if Admitted(h, w, req) {
      AdmittedCommits(h, base, w, stack, req);
      PushKeepsMatch(h, w.receipts, stack, req);
      hide Install;
      hide LayAll;
      hide ReceiptsMatch;
      hide SaneStack;
    } else {
      NotAdmitted(h, w, stack, req);
    }
  }

  lemma NotAdmitted(h: Hash, w: World, stack: seq<Request>, req: Request)
    requires SaneStack(stack) && ReceiptsMatch(h, w.receipts, stack) && w.script == [] && !w.locked
      && !Admitted(h, w, req)
    ensures Install(h, w, req).world == w
  {
    EarlierReceiptDecides(h, Lock(w).world, req);
    hide InstallLocked;
    if Distinct(req.destinations) && 0 < |req.destinations| <= MAX_TARGETS {
      assert !ReusableId(h, Lock(w).world, req);
    }
    hide ReusableId;
    hide StageFrom;
    hide InstallStaged;
    hide Distinct;
    hide ReceiptsMatch;
    hide SaneStack;
  }

  /** The layer of stack[k] is undoable down to the stack without it. */
  lemma LayerIsUndoable(h: Hash, base: Files, w: World, stack: seq<Request>, k: nat)
    requires Layered(h, base, w, stack) && k < |stack| && !Buried(stack, k)
    ensures var below := LayAll(base, Without(stack, k));
      var r := CommittedReceipt(h, stack[k]);
      && Undoable(w, stack[k].operation, below) && AllAcceptable(h, w.files, r)
      && AllReady(h, below, w.files, r.targets, |r.targets|, true, r.digest)
  {
    var below := LayAll(base, Without(stack, k));
    LayerIsOver(base, stack, k);
    hide LayAll;
    var targets := SwappedPlan(stack[k]);
    assert Clean(below, targets) && AllInFlight(below, w.files, targets, PackageTree(stack[k].package));
    InFlightIsReady(h, below, w.files, targets, stack[k].package);
    SwappedPlanIsApart(stack[k]);
    hide AllInFlight;
    hide AllReady;
    hide AllRecoverable;
    hide Apart;
    hide Clean;
    hide Sane;
    hide Over;
    hide SwappedPlan;
    hide ValidReceipt;
  }

  lemma SwappedPlanIsApart(req: Request)
    requires Sane(req)
    ensures Apart(SwappedPlan(req))
  {
    var targets := SwappedPlan(req);
    PlannedIsApart(req, Plan(req));
    assert forall i :: 0 <= i < |targets| ==> Slots(targets[i]) == Slots(Plan(req)[i]);
    assert forall i :: 0 <= i < |targets| ==> SelfApart(Plan(req)[i]);
  }

  lemma BuriedDestination(base: Files, stack: seq<Request>, k: nat) returns (i: nat, top: nat)
    requires SaneStack(stack) && k < |stack| && Buried(stack, k)
    ensures k < top < |stack| && i < |stack[k].destinations|
    ensures At(LayAll(base, stack), stack[k].destinations[i]) == Some(PackageTree(stack[top].package))
  {
    var j :| k < j < |stack| && !Disjoint(stack[k], stack[j]);
    var d :| d in stack[k].destinations && d in stack[j].destinations;
    top := TopOfDestination(base, stack, k, j, d);
    i :| 0 <= i < |stack[k].destinations| && stack[k].destinations[i] == d;
  }

  lemma OtherPackageIsUnacceptable(h: Hash, files: Files, req: Request, other: Request, i: nat)
    requires i < |req.destinations| && At(files, req.destinations[i]) == Some(PackageTree(other.package))
    requires PackageDigest(h, other) != PackageDigest(h, req)
    ensures !AllAcceptable(h, files, CommittedReceipt(h, req))
  {
    assert !Acceptable(h, files, CommittedReceipt(h, req).targets[i], PackageDigest(h, req));
  }

  /** A buried layer has a destination that no longer holds its package, so its rollback changes nothing. */
  lemma UndoRefused(h: Hash, base: Files, w: World, stack: seq<Request>, k: nat)
    requires Layered(h, base, w, stack) && k < |stack| && Buried(stack, k)
    requires forall j :: k < j < |stack| ==> PackageDigest(h, stack[j]) != PackageDigest(h, stack[k])
    ensures Rollback(h, w, stack[k].operation) == Halt(w, Conflict)
  {
    var i, top := BuriedDestination(base, stack, k);
    OtherPackageIsUnacceptable(h, w.files, stack[k], stack[top], i);
    hide AllAcceptable;
    assert w.receipts[stack[k].operation] == CommittedReceipt(h, stack[k]);
    RollbackUnacceptable(h, w, CommittedReceipt(h, stack[k]));
  }

  lemma RollbackUnacceptable(h: Hash, w: World, r: Receipt)
    requires w.script == [] && !w.locked && r.operation in w.receipts && w.receipts[r.operation] == r
    requires r.status != Aborted && !AllAcceptable(h, w.files, r)
    ensures Rollback(h, w, r.operation) == Halt(w, Conflict)
  {
    hide AllAcceptable;
  }

  lemma UndoUnknown(h: Hash, base: Files, w: World, stack: seq<Request>, operation: string)
    requires Layered(h, base, w, stack) && !InStack(stack, operation)
    ensures Rollback(h, w, operation).world == w
  {
    assert operation in w.receipts ==> w.receipts[operation].status == Aborted;
    hide LayAll;
    hide SaneStack;
    hide ReceiptsMatch;
    hide RestoreDown;
  }

  /** What remains in the stack. */
  lemma WithoutMembers(stack: seq<Request>, k: nat)
    requires SaneStack(stack) && k < |stack|
    ensures var down := Without(stack, k);
      && SaneStack(down)
      && (forall i :: 0 <= i < |down| ==> down[i] in stack && down[i].operation != stack[k].operation)
      && forall q :: InStack(stack, q) && q != stack[k].operation ==> InStack(down, q)
  {
    var down := Without(stack, k);
    forall q | InStack(stack, q) && q != stack[k].operation ensures InStack(down, q) {
      var i :| 0 <= i < |stack| && stack[i].operation == q;
      assert down[if i < k then i else i - 1] == stack[i];
    }
    forall i | 0 <= i < |down| ensures down[i] in stack && down[i].operation != stack[k].operation {
      assert down[i] == stack[if i < k then i else i + 1];
    }
  }

  lemma PopKeepsMatch(h: Hash, receipts: map<string, Receipt>, stack: seq<Request>, k: nat)
    requires SaneStack(stack) && ReceiptsMatch(h, receipts, stack) && k < |stack|
    ensures SaneStack(Without(stack, k))
    ensures var op := stack[k].operation;
      op in receipts && ReceiptsMatch(h, receipts[op := Closed(receipts[op])], Without(stack, k))
  {
    var op := stack[k].operation;
    WithoutMembers(stack, k);
    CommittedReceiptIsValid(h, stack[k]);
    ClosedStaysValid(receipts[op]);
    hide CommittedReceipt;
    hide ValidReceipt;
    hide SaneStack;
    hide Without;
    var now, down := receipts[op := Closed(receipts[op])], Without(stack, k);
    forall i | 0 <= i < |down| ensures down[i].operation in now
      && now[down[i].operation] == CommittedReceipt(h, down[i]) {
      assert down[i] in stack;
    }
    forall q | q in now && !InStack(down, q) ensures ValidReceipt(now[q], q) && now[q].status == Aborted {
      if q != op {
        assert !InStack(stack, q);
      }
    }
  }

  /**
   A rollback is accepted exactly if no later committed layer shares a destination with it.  Accepted, it takes its
   layer out from wherever it lies; refused, it changes no file and no receipt, not even at destinations it alone owns.
   */
  lemma UndoStep(h: Hash, base: Files, w: World, stack: seq<Request>, operation: string)
    requires Layered(h, base, w, stack)
    requires forall i, j :: 0 <= i < j < |stack| ==> PackageDigest(h, stack[i]) != PackageDigest(h, stack[j])
    ensures var o := Rollback(h, w, operation);
      var k := Position(stack, operation);
      && Layered(h, base, o.world, Popped(stack, operation))
      && (k < |stack| ==> (o.Go? <==> !Buried(stack, k)))
      && (k < |stack| ==> Buried(stack, k) ==> o.world == w) && (k == |stack| ==> o.world == w)
  {
    hide Rollback;
    hide Position;
    hide Without;
    var k := Position(stack, operation);
    if k == |stack| {
      UndoUnknown(h, base, w, stack, operation);
    } else if Buried(stack, k) {
      UndoRefused(h, base, w, stack, k);
    } else {
      UndoAccepted(h, base, w, stack, k);
    }
    hide Layered;
    hide Buried;
  }

  lemma UndoAccepted(h: Hash, base: Files, w: World, stack: seq<Request>, k: nat)
    requires Layered(h, base, w, stack) && k < |stack| && !Buried(stack, k)
    ensures var o := Rollback(h, w, stack[k].operation);
      o.Go? && Layered(h, base, o.world, Without(stack, k))
  {
    var below := LayAll(base, Without(stack, k));
    LayerIsUndoable(h, base, w, stack, k);
    hide AllAcceptable;
    hide AllReady;
    hide Undoable;
    hide LayAll;
    hide Without;
    RollbackFromReady(h, w, stack[k].operation, below);
    hide Rollback;
    PopKeepsMatch(h, w.receipts, stack, k);
    hide ReceiptsMatch;
    hide SaneStack;
  }

  // ----- whole histories

  datatype Action = Do(request: Request) | Undo(operation: string)

  ghost function Act(h: Hash, w: World, action: Action): World {
    match action
    case Do(req) => Install(h, w, req).world
    case Undo(operation) => Rollback(h, w, operation).world
  }

  ghost function Next(h: Hash, w: World, stack: seq<Request>, action: Action): seq<Request> {
    match action
    case Do(req) => Pushed(h, w, stack, req)
    case Undo(operation) => Popped(stack, operation)
  }

  /** The final world, and the layers that are then committed. */
  ghost function Play(h: Hash, w: World, stack: seq<Request>, actions: seq<Action>): (World, seq<Request>)
    decreases |actions|
  {
    if actions == [] then (w, stack)
    else Play(h, Act(h, w, actions[0]), Next(h, w, stack, actions[0]), actions[1..])
  }

  /** Requests of a history: proper, and different operations carry different digests. */
  ghost predicate Pool(h: Hash, pool: set<Request>) {
    && (forall r :: r in pool ==> Proper(r))
    && forall r, s :: r in pool && s in pool && r.operation != s.operation ==>
      PackageDigest(h, r) != PackageDigest(h, s)
  }

  ghost predicate From(pool: set<Request>, actions: seq<Action>) {
    forall i :: 0 <= i < |actions| && actions[i].Do? ==> actions[i].request in pool
  }

  ghost predicate StackFrom(pool: set<Request>, stack: seq<Request>) {
    forall i :: 0 <= i < |stack| ==> stack[i] in pool
  }

  lemma UndoLayered(h: Hash, base: Files, w: World, stack: seq<Request>, operation: string, pool: set<Request>)
    requires Pool(h, pool) && StackFrom(pool, stack) && Layered(h, base, w, stack)
    ensures Layered(h, base, Rollback(h, w, operation).world, Popped(stack, operation))
    ensures StackFrom(pool, Popped(stack, operation))
  {
    hide LayAll;
    hide ReceiptsMatch;
    hide Rollback;
    assert SaneStack(stack);
    forall i, j | 0 <= i < j < |stack| ensures PackageDigest(h, stack[i]) != PackageDigest(h, stack[j]) {
      assert stack[i] in pool && stack[j] in pool;
    }
    UndoStep(h, base, w, stack, operation);
    hide Layered;
    var k := Position(stack, operation);
    if k < |stack| {
      WithoutMembers(stack, k);
    }
    hide SaneStack;
    hide Buried;
    hide Position;
  }

  lemma NextLayered(h: Hash, base: Files, w: World, stack: seq<Request>, action: Action, pool: set<Request>)
    requires Pool(h, pool) && StackFrom(pool, stack) && Layered(h, base, w, stack)
    requires action.Do? ==> action.request in pool
    ensures Layered(h, base, Act(h, w, action), Next(h, w, stack, action)) && StackFrom(pool, Next(h, w, stack, action))
  {
    hide Layered;
    hide Rollback;
    hide Install;
    hide Admitted;
    hide Popped;
    match action {
      case Do(req) => DoStep(h, base, w, stack, req);
      case Undo(operation) => UndoLayered(h, base, w, stack, operation, pool);
    }
  }

  /** After any history the files are the original files with exactly the still committed layers on top. */
  lemma {:induction false} HistoryIsLayered(h: Hash, base: Files, w: World, stack: seq<Request>, actions: seq<Action>,
      pool: set<Request>)
    requires Pool(h, pool) && From(pool, actions) && StackFrom(pool, stack) && Layered(h, base, w, stack)
    ensures var (last, left) := Play(h, w, stack, actions);
      Layered(h, base, last, left)
    decreases |actions|
  {
    if actions != [] {
      NextLayered(h, base, w, stack, actions[0], pool);
      HistoryIsLayered(h, base, Act(h, w, actions[0]), Next(h, w, stack, actions[0]), actions[1..], pool);
    }
  }

  lemma {:induction false} PlayAppend(h: Hash, w: World, stack: seq<Request>, actions: seq<Action>, action: Action)
    ensures var (last, left) := Play(h, w, stack, actions);
      Play(h, w, stack, actions + [action]) == (Act(h, last, action), Next(h, last, left, action))
    decreases |actions|
  {
    hide Act;
    hide Next;
    var all := actions + [action];
    if actions == [] {
      assert all[1..] == [];
      assert Play(h, Act(h, w, action), Next(h, w, stack, action), [])
        == (Act(h, w, action), Next(h, w, stack, action));
    } else {
      assert all[1..] == actions[1..] + [action] && all[0] == actions[0];
      PlayAppend(h, Act(h, w, actions[0]), Next(h, w, stack, actions[0]), actions[1..], action);
    }
  }

  /** Install the requests in order, then roll them back in reverse order. */
  function ThereAndBack(requests: seq<Request>): seq<Action> {
    if requests == [] then [] else [Do(requests[0])] + ThereAndBack(requests[1..]) + [Undo(requests[0].operation)]
  }

  /** Sane requests for unused operations, none twice. */
  ghost predicate Usable(h: Hash, w: World, stack: seq<Request>, requests: seq<Request>) {
    && SaneStack(requests)
    && (forall i :: 0 <= i < |requests| ==> !InStack(stack, requests[i].operation))
    && forall i :: 0 <= i < |requests| && requests[i].operation in w.receipts ==>
         w.receipts[requests[i].operation].digest == PackageDigest(h, requests[i])
  }

  lemma UsableAdmits(h: Hash, base: Files, w: World, stack: seq<Request>, requests: seq<Request>)
    requires Layered(h, base, w, stack) && Usable(h, w, stack, requests) && requests != []
    ensures Admitted(h, w, requests[0]) && Proper(requests[0])
  {
    assert Sane(requests[0]);
    hide LayAll;
    hide ValidReceipt;
  }

  lemma UsableRest(h: Hash, w: World, next: World, stack: seq<Request>, requests: seq<Request>)
    requires Usable(h, w, stack, requests) && requests != []
    requires next.receipts == w.receipts[requests[0].operation := CommittedReceipt(h, requests[0])]
    ensures Usable(h, next, stack + [requests[0]], requests[1..])
  {
    hide Sane;
    var up := stack + [requests[0]];
    forall i | 0 <= i < |requests| - 1
      ensures !InStack(up, requests[1..][i].operation) && requests[1..][i].operation != requests[0].operation
    {
      assert requests[1..][i] == requests[i + 1];
      assert forall j :: 0 <= j < |stack| ==> up[j] == stack[j];
    }
  }

  lemma UsableIsAdmitted(h: Hash, base: Files, w: World, stack: seq<Request>, requests: seq<Request>)
    requires Layered(h, base, w, stack) && Usable(h, w, stack, requests) && requests != []
    ensures Admitted(h, w, requests[0])
    ensures var next := Install(h, w, requests[0]).world;
      Layered(h, base, next, stack + [requests[0]]) && Usable(h, next, stack + [requests[0]], requests[1..])
  {
    hide Install;
    hide Layered;
    hide Usable;
    hide Admitted;
    hide CommittedReceipt;
    UsableAdmits(h, base, w, stack, requests);
    AdmittedCommits(h, base, w, stack, requests[0]);
    DoStep(h, base, w, stack, requests[0]);
    UsableRest(h, w, Install(h, w, requests[0]).world, stack, requests);
  }

  lemma PopTop(stack: seq<Request>, req: Request)
    requires !InStack(stack, req.operation)
    ensures Popped(stack + [req], req.operation) == stack
  {
    var up := stack + [req];
    assert Position(up, req.operation) == |stack|;
    assert Without(up, |stack|) == stack;
  }

  lemma PlayFirst(h: Hash, w: World, stack: seq<Request>, req: Request, rest: seq<Action>)
    requires Admitted(h, w, req)
    ensures Play(h, w, stack, [Do(req)] + rest) == Play(h, Install(h, w, req).world, stack + [req], rest)
  {
    hide Admitted;
    hide Install;
    assert ([Do(req)] + rest)[0] == Do(req) && ([Do(req)] + rest)[1..] == rest;
  }

  lemma {:induction false} ThereAndBackStack(h: Hash, base: Files, w: World, stack: seq<Request>,
      requests: seq<Request>)
    requires Layered(h, base, w, stack) && Usable(h, w, stack, requests)
    ensures Play(h, w, stack, ThereAndBack(requests)).1 == stack
    decreases |requests|
  {
    hide Layered;
    hide Usable;
    hide Install;
    if requests != [] {
      UsableIsAdmitted(h, base, w, stack, requests);
      ThereAndBackStack(h, base, Install(h, w, requests[0]).world, stack + [requests[0]], requests[1..]);
      UsableIsNew(h, w, stack, requests);
      PlayAround(h, w, stack, requests[0], ThereAndBack(requests[1..]));
    }
  }

  lemma UsableIsNew(h: Hash, w: World, stack: seq<Request>, requests: seq<Request>)
    requires Usable(h, w, stack, requests) && requests != []
    ensures !InStack(stack, requests[0].operation)
  {
  }

  /** An inner history that leaves the stack alone, between an install and its rollback. */
  lemma PlayAround(h: Hash, w: World, stack: seq<Request>, req: Request, inner: seq<Action>)
    requires Admitted(h, w, req) && !InStack(stack, req.operation)
    requires Play(h, Install(h, w, req).world, stack + [req], inner).1 == stack + [req]
    ensures Play(h, w, stack, [Do(req)] + inner + [Undo(req.operation)]).1 == stack
  {
    hide Play;
    hide Install;
    hide Admitted;
    hide Popped;
    PlayAppend(h, w, stack, [Do(req)] + inner, Undo(req.operation));
    PlayFirst(h, w, stack, req, inner);
    PopTop(stack, req);
  }

  /** Installs over any overlapping destinations, rolled back in reverse order, restore the original files. */
  lemma ReverseOrderRestores(h: Hash, base: Files, w: World, requests: seq<Request>, pool: set<Request>)
    requires Pool(h, pool) && StackFrom(pool, requests) && Layered(h, base, w, []) && Usable(h, w, [], requests)
    ensures Play(h, w, [], ThereAndBack(requests)).0.files == base
  {
    ThereAndBackStack(h, base, w, [], requests);
    ThereAndBackFrom(pool, requests);
    HistoryIsLayered(h, base, w, [], ThereAndBack(requests), pool);
    hide Play;
  }

  lemma {:induction false} ThereAndBackFrom(pool: set<Request>, requests: seq<Request>)
    requires StackFrom(pool, requests)
    ensures From(pool, ThereAndBack(requests))
    decreases |requests|
  {
    if requests != [] {
      assert requests[0] in pool;
      ThereAndBackFrom(pool, requests[1..]);
    }
  }
}
