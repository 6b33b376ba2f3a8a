/** Reconcile after crashed installs: one among any other receipts, and several one over the other. */
module InstallCrashes {
  import opened InstallModel
  import opened RestoreProofs
  import opened SwapProofs
  import opened InstallTheorems
  import opened InstallReceipts
  import opened InstallRefusals
  import opened InstallRecovery
  import opened InstallReconcile

  // ----- what the other receipts of a listing leave alone

  /** A fault-free rollback of any receipt: its own slots, its own receipt. */
  lemma RollbackReach(h: Hash, w: World, operation: string)
    requires Calm(w) && operation in w.receipts
    ensures var r := w.receipts[operation];
      var o := Rollback(h, w, operation);
      && (forall p :: Outside(r.targets, p) ==> At(o.world.files, p) == At(w.files, p))
      && (o.world.receipts == w.receipts || o.world.receipts == w.receipts[operation := Closed(r)])
      && Calm(o.world)
  {
    var r := w.receipts[operation];
    var locked := Lock(w).world;
    RestoreDownTouches(h, locked, r.targets, |r.targets|, true, r.digest);
    RestoreDownReceipts(h, locked, r.targets, |r.targets|, true, r.digest);
    RestoreDownCalm(h, locked, r.targets, |r.targets|, r.digest);
    hide RestoreDown;
    hide AllAcceptable;
  }

  lemma {:induction false} RestoreDownCalm(h: Hash, w: World, targets: seq<Target>, n: nat, digest: string)
    requires FaultFree(w) && n <= |targets|
    ensures var o := RestoreDown(h, w, targets, n, true, digest); FaultFree(o.world) && (o.Halt? ==> o.why != Crash)
    decreases n
  {
    if n > 0 {
      var o := RestoreTarget(h, w, targets[n - 1], true, digest);
      assert FaultFree(o.world) && (o.Halt? ==> o.why != Crash);
      hide RestoreTarget;
      if o.Go? { RestoreDownCalm(h, o.world, targets, n - 1, digest); }
    }
  }

  /** The other started receipts of a listing share no path with `r`. */
  ghost predicate OthersElsewhere(w: World, listing: seq<string>, operation: string, r: Receipt) {
    forall s :: s in listing && s != operation && IsStarted(w, s) ==> Strangers(w.receipts[s], r)
  }

  ghost predicate SameAtReceipt(w: World, v: World, operation: string, r: Receipt) {
    && SameAtAll(v.files, w.files, r.targets)
    && operation in v.receipts && operation in w.receipts && v.receipts[operation] == w.receipts[operation]
  }

  lemma RollbackElsewhere(h: Hash, w: World, s: string, operation: string, r: Receipt, listing: seq<string>)
    requires Calm(w) && s != operation && operation in w.receipts && IsStarted(w, s) && Strangers(w.receipts[s], r)
    requires OthersElsewhere(w, listing, operation, r)
    ensures var v := Rollback(h, w, s).world;
      SameAtReceipt(w, v, operation, r) && Calm(v) && OthersElsewhere(v, listing, operation, r)
  {
    RollbackReach(h, w, s);
    hide Rollback;
    SameAtOutside(Rollback(h, w, s).world.files, w.files, w.receipts[s], r);
    hide Strangers;
  }

  lemma SameAtSelf(f: Files, r: Receipt)
    ensures SameAtAll(f, f, r.targets)
  {
  }

  /** Whether they are rolled back, refused or found corrupt: receipts elsewhere leave its slots and its receipt. */
  lemma {:induction false} ElsewhereIsKept(h: Hash, w: World, listing: seq<string>, operation: string, r: Receipt,
      all: seq<string>)
    requires Calm(w) && operation in w.receipts && OthersElsewhere(w, all, operation, r)
    requires (forall s :: s in listing ==> s in all) && (operation in listing ==> !IsStarted(w, operation))
    ensures var o := ReconcileFrom(h, w, listing);
      SameAtReceipt(w, o.world, operation, r) && Calm(o.world) && OthersElsewhere(o.world, all, operation, r)
    decreases |listing|
  {
    hide Rollback;
    hide Strangers;
    hide SameAt;
    hide ValidReceipt;
    SameAtSelf(w.files, r);
    if listing != [] {
      var s, rest := listing[0], listing[1..];
      assert s in listing && forall x :: x in rest ==> x in listing;
      if IsStarted(w, s) {
        RollbackElsewhere(h, w, s, operation, r, all);
        var v := Rollback(h, w, s).world;
        ElsewhereIsKept(h, v, rest, operation, r, all);
        SameAtChain(ReconcileFrom(h, v, rest).world.files, v.files, w.files, r.targets);
      } else {
        ElsewhereIsKept(h, w, rest, operation, r, all);
      }
    }
  }

  lemma {:induction false} ReconcileSplits(h: Hash, w: World, a: seq<string>, b: seq<string>)
    ensures var o := ReconcileFrom(h, w, a);
      ReconcileFrom(h, w, a + b) == if o.Go? then ReconcileFrom(h, o.world, b) else o
    decreases |a|
  {
    hide Rollback;
    hide ValidReceipt;
    if a == [] {
      assert a + b == b;
    } else {
      assert (a + b)[0] == a[0] && (a + b)[1..] == a[1..] + b;
      if IsStarted(w, a[0]) { ReconcileSplits(h, Rollback(h, w, a[0]).world, a[1..], b); }
      ReconcileSplits(h, w, a[1..], b);
    }
  }

  lemma RollbackOwnReceipt(h: Hash, w: World, operation: string, s: string)
    requires s != operation && s in w.receipts
    ensures var v := Rollback(h, w, operation).world; s in v.receipts && v.receipts[s] == w.receipts[s]
  {
    if operation in w.receipts {
      var r := w.receipts[operation];
      RestoreDownReceipts(h, Lock(w).world, r.targets, |r.targets|, true, r.digest);
    }
    hide RestoreDown;
    hide AllAcceptable;
  }

  /** Under any script: a receipt that is not listed stays as it is. */
  lemma {:induction false} UnlistedIsKept(h: Hash, w: World, listing: seq<string>, s: string)
    requires s !in listing && s in w.receipts
    ensures var v := ReconcileFrom(h, w, listing).world; s in v.receipts && v.receipts[s] == w.receipts[s]
    decreases |listing|
  {
    hide Rollback;
    hide ValidReceipt;
    if listing != [] {
      RollbackOwnReceipt(h, w, listing[0], s);
      var o := Rollback(h, w, listing[0]);
      UnlistedIsKept(h, w, listing[1..], s);
      if o.Go? { UnlistedIsKept(h, o.world, listing[1..], s); }
    }
  }

  /** The first listed receipt that is not valid ends the scan, if it gets there, as corrupt. */
  lemma ReconcileStopsAtInvalid(h: Hash, w: World, before: seq<string>, s: string, after: seq<string>)
    requires s !in before && s in w.receipts && !ValidReceipt(w.receipts[s], s)
    ensures var first := ReconcileFrom(h, w, before);
      ReconcileFrom(h, w, before + [s] + after) == if first.Go? then Halt(first.world, Corrupt) else first
  {
    UnlistedIsKept(h, w, before, s);
    assert before + [s] + after == before + ([s] + after);
    ReconcileSplits(h, w, before, [s] + after);
    var first := ReconcileFrom(h, w, before);
    assert ([s] + after)[0] == s;
    assert first.Go? ==> ReconcileFrom(h, first.world, [s] + after) == Halt(first.world, Corrupt);
    hide ReconcileFrom;
    hide ValidReceipt;
  }

  /** A reconcile that completes met no unfinished file, had few enough receipts, and leaves none of them started. */
  lemma CompleteReconcileSettles(h: Hash, w: World, listing: seq<string>)
    ensures w.strays > 0 || |listing| > MAX_RECEIPTS ==> Reconcile(h, w, listing) == Halt(w, Corrupt)
    ensures var o := Reconcile(h, w, listing);
      o.Go? ==> forall s :: s in listing ==> s in o.world.receipts && o.world.receipts[s].status != Started
  {
    ScanSettles(h, w, listing);
    hide ReconcileFrom;
  }

  lemma {:induction false} ScanSettles(h: Hash, w: World, listing: seq<string>)
    ensures var o := ReconcileFrom(h, w, listing);
      o.Go? ==> forall s :: s in listing ==> s in o.world.receipts && o.world.receipts[s].status != Started
    decreases |listing|
  {
    hide ValidReceipt;
    hide Rollback;
    if listing != [] && ReconcileFrom(h, w, listing).Go? {
      var s, rest := listing[0], listing[1..];
      var next := if w.receipts[s].status == Started then Rollback(h, w, s).world else w;
      StartedIsClosed(h, w, s);
      ScanSettles(h, next, rest);
      if s !in rest { UnlistedIsKept(h, next, rest, s); }
      assert forall x :: x in listing <==> x == s || x in rest;
    }
  }

  lemma StartedIsClosed(h: Hash, w: World, s: string)
    requires s in w.receipts && ValidReceipt(w.receipts[s], s)
    ensures var o := Rollback(h, w, s);
      w.receipts[s].status == Started && o.Go? ==> s in o.world.receipts && o.world.receipts[s].status == Aborted
  {
    RollbackCloses(h, w, s);
    hide Rollback;
  }

  // ----- one crashed install

  lemma PhasesKeepValidity(d: Receipt, r: Receipt)
    requires r.status == d.status == Started && ValidReceipt(r, r.operation) && Rephased(d, r)
    ensures ValidReceipt(d, r.operation)
  {
    forall i | 0 <= i < |d.targets| ensures ValidTarget(d, i) {
      assert ValidTarget(r, i);
    }
  }

  /** A receipt that is started, valid, and undone to `orig` by the next fault-free rollback. */
  ghost predicate Healable(h: Hash, w: World, operation: string, orig: Files) {
    && IsStarted(w, operation) && ValidReceipt(w.receipts[operation], operation)
    && Apart(w.receipts[operation].targets)
    && var o := Rollback(h, Reboot(w, []), operation);
    && o.Go? && o.world.files == orig && Calm(o.world)
    && o.world.receipts == w.receipts[operation := Closed(w.receipts[operation])]
  }

  /** An install that died with its transaction recorded. */
  ghost predicate Died(h: Hash, w: World, req: Request) {
    && Proper(req) && CrashOnly(w.script)
    && Install(h, w, req).Halt? && !Unrecorded(h, w, req, Install(h, w, req))
  }

  lemma DiedIsHealable(h: Hash, w: World, req: Request)
    requires Died(h, w, req)
    ensures Healable(h, Install(h, w, req).world, req.operation, w.files)
    ensures forall s :: s != req.operation && s in w.receipts ==>
      s in Install(h, w, req).world.receipts && Install(h, w, req).world.receipts[s] == w.receipts[s]
  {
    InstallEnds(h, w, req);
    var o := Install(h, w, req);
    if !(0 < |req.destinations| <= MAX_TARGETS) { TooManyIsUnrecorded(h, w, req); }
    hide Install;
    CrashedIsReady(h, w, req, o);
    NewReceiptIsValid(h, req, Plan(req));
    PhasesKeepValidity(o.world.receipts[req.operation], PlanReceipt(h, req));
    hide Recorded;
    hide AllAcceptable;
    RollbackFromReady(h, Reboot(o.world, []), req.operation, w.files);
    hide ValidReceipt;
    hide Rollback;
    hide Apart;
    hide Closed;
  }

  lemma TooManyIsUnrecorded(h: Hash, w: World, req: Request)
    requires !(0 < |req.destinations| <= MAX_TARGETS)
    ensures Unrecorded(h, w, req, Install(h, w, req))
  {
    assert OnlyTemps(w.files, w.files, req);
  }

  /** The rollback at a world that agrees at the slots and on the receipt. */
  lemma HealsElsewhere(h: Hash, w: World, v: World, operation: string, orig: Files)
    requires Calm(w) && Calm(v) && Healable(h, w, operation, orig)
    requires SameAtReceipt(w, v, operation, w.receipts[operation])
    ensures var r := w.receipts[operation];
      var o := Rollback(h, v, operation);
      && o.Go? && SameAtAll(o.world.files, orig, r.targets) && Calm(o.world)
      && o.world.receipts == v.receipts[operation := Closed(r)]
      && forall p :: Outside(r.targets, p) ==> At(o.world.files, p) == At(v.files, p)
  {
    assert Reboot(w, []) == w;
    RollbackLocal(h, v, w, operation);
    RollbackReach(h, v, operation);
    RollbackCloses(h, v, operation);
    hide Rollback;
    hide Apart;
    hide SameAtAll;
    hide Closed;
  }

  lemma HealsAmong(h: Hash, w: World, operation: string, orig: Files, before: seq<string>, after: seq<string>)
    requires Calm(w) && Healable(h, w, operation, orig) && operation !in before
    requires OthersElsewhere(w, before + [operation] + after, operation, w.receipts[operation])
    ensures var r := w.receipts[operation];
      var first := ReconcileFrom(h, w, before);
      var healed := ReconcileFrom(h, w, before + [operation] + after);
      && operation in healed.world.receipts
      && if first.Go? then
           SameAtAll(healed.world.files, orig, r.targets) && healed.world.receipts[operation] == Closed(r)
         else
           && healed == first
           && SameAtAll(healed.world.files, w.files, r.targets) && healed.world.receipts[operation] == r
  {
    var r, all := w.receipts[operation], before + [operation] + after;
    hide Rollback;
    hide Strangers;
    hide SameAtAll;
    hide Apart;
    assert all == before + ([operation] + after);
    ReconcileSplits(h, w, before, [operation] + after);
    ElsewhereIsKept(h, w, before, operation, r, all);
    var first := ReconcileFrom(h, w, before);
    if first.Go? {
      HealsElsewhere(h, w, first.world, operation, orig);
      hide Healable;
      var closed := Rollback(h, first.world, operation).world;
      ClosedStaysValid(r);
      assert ([operation] + after)[1..] == after;
      assert ReconcileFrom(h, first.world, [operation] + after) == ReconcileFrom(h, closed, after);
      ElsewhereIsKept(h, closed, after, operation, r, all);
      SameAtChain(ReconcileFrom(h, closed, after).world.files, closed.files, orig, r.targets);
    }
    hide ReconcileFrom;
  }

  /**
   An install that dies, then a fault-free reconcile over any listing, valid or not, whose other started receipts have
   no path in common with it: with an unfinished receipt file in the directory reconcile refuses and changes nothing.
   Otherwise, if the listing before it goes through, every path of the crashed install holds what it held before; if
   it does not, reconcile ends there and the crashed install is untouched.
   */
  lemma CrashThenReconcileAll(h: Hash, w: World, req: Request, listing: seq<string>, j: nat)
    requires Died(h, w, req) && req.operation in Install(h, w, req).world.receipts
    requires j < |listing| <= MAX_RECEIPTS && listing[j] == req.operation && req.operation !in listing[..j]
    requires var o := Install(h, w, req);
      OthersElsewhere(o.world, listing, req.operation, o.world.receipts[req.operation])
    ensures var again := Reboot(Install(h, w, req).world, []);
      var r := again.receipts[req.operation];
      var first := ReconcileFrom(h, again, listing[..j]);
      var healed := Reconcile(h, again, listing);
      if again.strays > 0 then healed == Halt(again, Corrupt)
      else
        && req.operation in healed.world.receipts
        && if first.Go? then
             SameAtAll(healed.world.files, w.files, r.targets) && healed.world.receipts[req.operation] == Closed(r)
           else
             && healed == first
             && SameAtAll(healed.world.files, again.files, r.targets) && healed.world.receipts[req.operation] == r
  {
    DiedIsHealable(h, w, req);
    hide Died;
    hide Install;
    hide Rollback;
    hide ReconcileFrom;
    hide Strangers;
    hide SameAtAll;
    hide Closed;
    var again := Reboot(Install(h, w, req).world, []);
    assert listing == listing[..j] + [req.operation] + listing[j + 1..];
    assert Healable(h, again, req.operation, w.files);
    HealsAmong(h, again, req.operation, w.files, listing[..j], listing[j + 1..]);
  }

  // ----- several crashed installs, one over the other

  /** Each install dies, the lock is cleared, and the next one starts over what is there. */
  ghost predicate DieInTurn(h: Hash, w: World, reqs: seq<Request>, scripts: seq<seq<Event>>)
    decreases |reqs|
  {
    && |reqs| == |scripts|
    && (reqs != [] ==>
          var start := Reboot(w, scripts[0]);
          Died(h, start, reqs[0]) && DieInTurn(h, Install(h, start, reqs[0]).world, reqs[1..], scripts[1..]))
  }

  function LastWorld(h: Hash, w: World, reqs: seq<Request>, scripts: seq<seq<Event>>): World
    requires |reqs| == |scripts|
    decreases |reqs|
  {
    if reqs == [] then w
    else LastWorld(h, Install(h, Reboot(w, scripts[0]), reqs[0]).world, reqs[1..], scripts[1..])
  }

  function LatestFirst(reqs: seq<Request>): seq<string> {
    if reqs == [] then [] else LatestFirst(reqs[1..]) + [reqs[0].operation]
  }

  ghost predicate DistinctOperations(reqs: seq<Request>) {
    reqs != [] ==> reqs[0].operation !in LatestFirst(reqs[1..]) && DistinctOperations(reqs[1..])
  }

  lemma HealsWhole(h: Hash, w: World, v: World, operation: string, orig: Files)
    requires Calm(v) && Healable(h, w, operation, orig) && v.files == w.files
    requires operation in v.receipts && v.receipts[operation] == w.receipts[operation]
    ensures var o := Rollback(h, v, operation);
      && o.Go? && o.world.files == orig && Calm(o.world)
      && o.world.receipts == v.receipts[operation := Closed(w.receipts[operation])]
  {
    var start, r := Reboot(w, []), w.receipts[operation];
    SameAtSelf(w.files, r);
    HealsElsewhere(h, start, v, operation, orig);
    RollbackReach(h, start, operation);
    hide Rollback;
    hide Apart;
    hide ValidReceipt;
    SameEverywhere(Rollback(h, v, operation).world.files, orig, w.files, r.targets);
  }

  lemma SameEverywhere(f: Files, g: Files, base: Files, targets: seq<Target>)
    requires SameAtAll(f, g, targets)
    requires forall p :: Outside(targets, p) ==> At(f, p) == At(base, p) && At(g, p) == At(base, p)
    ensures f == g
  {
    forall p ensures At(f, p) == At(g, p) {
      if !Outside(targets, p) {
        var i :| 0 <= i < |targets| && p in Slots(targets[i]);
        assert SameAt(f, g, targets[i]);
      }
    }
    assert forall p :: p in f <==> At(f, p).Some?;
    assert forall p :: p in g <==> At(g, p).Some?;
  }

  lemma {:induction false} ScanLatestFirst(h: Hash, w: World, reqs: seq<Request>, scripts: seq<seq<Event>>)
    requires DieInTurn(h, w, reqs, scripts) && DistinctOperations(reqs)
    ensures var o := ReconcileFrom(h, Reboot(LastWorld(h, w, reqs, scripts), []), LatestFirst(reqs));
      && o.Go? && o.world.files == w.files && Calm(o.world)
      && forall s :: s in w.receipts && s !in LatestFirst(reqs) ==>
           s in o.world.receipts && o.world.receipts[s] == w.receipts[s]
    decreases |reqs|
  {
    hide Died;
    hide Install;
    hide Rollback;
    hide ValidReceipt;
    hide Apart;
    if reqs != [] {
      var start, operation := Reboot(w, scripts[0]), reqs[0].operation;
      var next := Install(h, start, reqs[0]).world;
      DiedIsHealable(h, start, reqs[0]);
      ScanLatestFirst(h, next, reqs[1..], scripts[1..]);
      var last := Reboot(LastWorld(h, w, reqs, scripts), []);
      var o := ReconcileFrom(h, last, LatestFirst(reqs[1..]));
      ReconcileSplits(h, last, LatestFirst(reqs[1..]), [operation]);
      HealsWhole(h, next, o.world, operation, w.files);
      ScanOfOne(h, o.world, operation);
    }
  }

  lemma ScanOfOne(h: Hash, w: World, operation: string)
    requires IsStarted(w, operation) && ValidReceipt(w.receipts[operation], operation)
    ensures ReconcileFrom(h, w, [operation]) == Rollback(h, w, operation)
  {
    hide Rollback;
    hide ValidReceipt;
    var o := Rollback(h, w, operation);
    assert [operation][1..] == [];
    assert o.Go? ==> ReconcileFrom(h, o.world, []) == o;
  }

  /**
   Any number of installs over any destinations, shared or not, each dying at any step with the lock cleared between
   them: a fault-free reconcile that lists the latest first brings back the files from before all of them, unless an
   unfinished receipt file makes it refuse.
   */
  lemma LatestFirstRecovers(h: Hash, w: World, reqs: seq<Request>, scripts: seq<seq<Event>>)
    requires DieInTurn(h, w, reqs, scripts) && DistinctOperations(reqs) && |LatestFirst(reqs)| <= MAX_RECEIPTS
    ensures var last := Reboot(LastWorld(h, w, reqs, scripts), []);
      var healed := Reconcile(h, last, LatestFirst(reqs));
      if last.strays > 0 then healed == Halt(last, Corrupt) else healed.Go? && healed.world.files == w.files
  {
    ScanLatestFirst(h, w, reqs, scripts);
    hide ReconcileFrom;
    hide LastWorld;
    hide LatestFirst;
    hide DieInTurn;
  }
}
