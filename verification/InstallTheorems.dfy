/** Crash atomicity, recovery, and the strict in-process undo of the install transaction. */
module InstallTheorems {
  import opened FrozenDigest
  import opened InstallModel
  import opened RestoreProofs
  import opened SwapProofs

  function PackageTree(package: seq<FrozenFile>): Tree {
    Directory(package, "")
  }

  /** The transaction found neither temps nor backups. */
  ghost predicate Clean(orig: Files, targets: seq<Target>) {
    forall i :: 0 <= i < |targets| ==> targets[i].temp !in orig && targets[i].backup !in orig
  }

  /** Every destination holds the package, every backup the tree that was there before, nothing else differs. */
  ghost predicate Installed(orig: Files, files: Files, targets: seq<Target>, tree: Tree) {
    AllInFlight(orig, files, targets, tree) && forall i :: 0 <= i < |targets| ==> targets[i].phase == Swapped
  }

  lemma ReturnedIsOriginal(orig: Files, files: Files, targets: seq<Target>)
    requires AllReturned(orig, files, targets, 0) && SameOutside(orig, files, targets) && Clean(orig, targets)
    ensures files == orig
  {
    forall p ensures At(files, p) == At(orig, p) {
      if !Outside(targets, p) {
        var i :| 0 <= i < |targets| && p in Slots(targets[i]);
        assert Returned(files, targets[i], Was(orig, targets[i]));
      }
    }
    assert forall p :: p in files <==> At(files, p).Some?;
    assert forall p :: p in orig <==> At(orig, p).Some?;
  }

  /** A crashed swap can be undone under the lenient policy, for the phases in the durable receipt. */
  lemma InFlightIsReady(h: Hash, orig: Files, files: Files, targets: seq<Target>, package: seq<FrozenFile>)
    requires AllInFlight(orig, files, targets, PackageTree(package))
    ensures AllReady(h, orig, files, targets, |targets|, true, h(Framed(package)))
    ensures AllRecoverable(orig, files, targets)
    ensures forall i :: 0 <= i < |targets| ==> Acceptable(h, files, targets[i], h(Framed(package)))
  {
  }

  /** A failed swap can be undone under the strict policy, for the phases in memory. */
  lemma InFlightLiveIsReady(h: Hash, orig: Files, files: Files, targets: seq<Target>, package: seq<FrozenFile>)
    requires AllInFlightLive(orig, files, targets, PackageTree(package))
    ensures AllReady(h, orig, files, targets, |targets|, false, h(Framed(package)))
  {
  }

  /** How the transaction ends once its first receipt is written. */
  ghost predicate SwapAllEnd(h: Hash, w: World, r: Receipt, o: Outcome, package: seq<FrozenFile>, orig: Files) {
    && r.operation in o.world.receipts
    && var d := o.world.receipts[r.operation];
    && o.world.receipts == w.receipts[r.operation := d]
    && (o.Halt? ==> o.why == Io || o.why == Crash)
    && match d.status {
         case Committed => o.Go? && Rephased(d, r.(status := Committed))
           && Installed(orig, o.world.files, d.targets, PackageTree(package))
         case Aborted => o.Halt? && d == Closed(r) && o.world.files == orig
         case Started => o.Halt? && Rephased(d, r) && AllRecoverable(orig, o.world.files, d.targets)
       }
  }

  lemma AbortRestores(h: Hash, w: World, r: Receipt, o: Outcome, live: Receipt, package: seq<FrozenFile>, orig: Files)
    requires Apart(r.targets) && Clean(orig, r.targets) && r.digest == h(Framed(package))
    requires SwapStop(w, r, o, live, PackageTree(package), orig)
    ensures |live.targets| == |r.targets| && live.digest == r.digest && r.operation in o.world.receipts
    ensures var restored := RestoreDown(h, o.world, live.targets, |live.targets|, false, r.digest);
      && AllRecoverable(orig, restored.world.files, o.world.receipts[r.operation].targets)
      && OnlyFiles(o.world, restored.world)
      && (restored.Go? ==> restored.world.files == orig)
      && (restored.Halt? ==> restored.why == Io || restored.why == Crash)
      && (o.world.script == [] ==> restored.Go? && restored.world.script == [])
  {
    hide Faithful;
    hide InFlightLive;
    hide InFlight;
    hide Recoverable;
    var d := o.world.receipts[r.operation];
    assert Clean(orig, live.targets);
    InFlightLiveIsReady(h, orig, o.world.files, live.targets, package);
    SameOutsideRephased(orig, o.world.files, live, r);
    SameOutsideRephased(orig, o.world.files, d, r);
    hide AllInFlightLive;
    hide SameOutside;
    hide Apart;
    hide Rephased;
    hide LaggingTargets;
    hide AllReady;
    hide AllRecoverable;
    hide Clean;
    RestoreDownKeeps(h, o.world, live.targets, d.targets, |live.targets|, false, r.digest, orig);
    var restored := RestoreDown(h, o.world, live.targets, |live.targets|, false, r.digest);
    hide RestoreDown;
    hide AllReturned;
    if restored.Go? {
      ReturnedIsOriginal(orig, restored.world.files, live.targets);
    }
  }

  /** The strict undo: it never meets a conflict, and without further faults it ends with the original files. */
  lemma AbortEnds(h: Hash, w: World, r: Receipt, o: Outcome, live: Receipt, package: seq<FrozenFile>, orig: Files)
    requires Apart(r.targets) && Clean(orig, r.targets) && r.status == Started && r.digest == h(Framed(package))
    requires o.Halt? && o.why == Io && SwapStop(w, r, o, live, PackageTree(package), orig)
    ensures var q := AbortInstall(h, o.world, live, o.why);
      && SwapAllEnd(h, w, r, q, package, orig)
      && (o.world.script == [] ==> q.Halt? && q.why == Io && q.world.receipts[r.operation].status == Aborted)
  {
    AbortRestores(h, w, r, o, live, package, orig);
    var restored := RestoreDown(h, o.world, live.targets, |live.targets|, false, r.digest);
    hide RestoreDown;
    hide AllInFlight;
    hide AllInFlightLive;
    hide LaggingTargets;
    hide AllRecoverable;
    hide Faithful;
    if restored.Go? {
      assert Closed(live) == Closed(r);
      AbortReceipt(h, w, r, o, restored, live, package, orig);
    }
  }

  lemma AbortReceipt(h: Hash, w: World, r: Receipt, o: Outcome, restored: Outcome, live: Receipt,
                     package: seq<FrozenFile>, orig: Files)
    requires r.status == Started && restored.Go? && OnlyFiles(o.world, restored.world) && Closed(live) == Closed(r)
    requires SwapStop(w, r, o, live, PackageTree(package), orig) && restored.world.files == orig
    requires AllRecoverable(orig, orig, o.world.receipts[r.operation].targets)
    ensures var q := WriteReceipt(restored.world, Closed(live));
      var e := if q.Go? then Halt(q.world, Io) else q;
      && SwapAllEnd(h, w, r, e, package, orig)
      && (restored.world.script == [] ==> q.Go?)
  {
    WriteReceiptStep(restored.world, Closed(live));
    hide AllRecoverable;
    hide AllInFlight;
    hide AllInFlightLive;
    hide LaggingTargets;
  }

  /** The last step: the committed receipt. */
  lemma CommitEnds(h: Hash, w: World, r: Receipt, o: Outcome, live: Receipt, package: seq<FrozenFile>, orig: Files)
    requires r.status == Started && o.Go? && SwapStop(w, r, o, live, PackageTree(package), orig) && AllSwapped(live)
    ensures var c := WriteReceipt(o.world, live.(status := Committed));
      && SwapAllEnd(h, w, r, c, package, orig)
      && Faithful(w, c)
      && AllInFlight(orig, c.world.files, c.world.receipts[r.operation].targets, PackageTree(package))
      && AllSwapped(c.world.receipts[r.operation])
  {
    var committed := live.(status := Committed);
    WriteReceiptStep(o.world, committed);
    FaithfulChain(w, o, WriteReceipt(o.world, committed));
    InFlightIsReady(h, orig, o.world.files, live.targets, package);
    hide WriteReceipt;
    hide Faithful;
    hide InFlight;
    hide SameOutside;
  }

  ghost predicate AllSwapped(r: Receipt) {
    forall i :: 0 <= i < |r.targets| ==> r.targets[i].phase == Swapped
  }

  /** A crash that no earlier failure preceded leaves every target in flight. */
  ghost predicate CleanCrash(r: Receipt, o: Outcome, package: seq<FrozenFile>, orig: Files)
    requires r.operation in o.world.receipts
  {
    var d := o.world.receipts[r.operation];
    o.Halt? && o.why == Crash && d.status == Started
      && AllInFlight(orig, o.world.files, d.targets, PackageTree(package))
  }

  lemma CrashEnds(h: Hash, w: World, r: Receipt, o: Outcome, live: Receipt, package: seq<FrozenFile>, orig: Files)
    requires r.status == Started && o.Halt? && o.why == Crash && SwapStop(w, r, o, live, PackageTree(package), orig)
    ensures SwapAllEnd(h, w, r, o, package, orig)
    ensures r.operation in o.world.receipts && CleanCrash(r, o, package, orig)
  {
    InFlightIsReady(h, orig, o.world.files, o.world.receipts[r.operation].targets, package);
    hide AllRecoverable;
    hide AllInFlight;
    hide AllInFlightLive;
    hide LaggingTargets;
  }

  /**
   From the first receipt write on, whatever fails: the strict undo never meets a conflict, and the durable receipt
   tells the truth.  Without faults the transaction commits; a single failure of a swap step is undone completely.
   */
  lemma SwapAllEnds(h: Hash, w: World, r: Receipt, package: seq<FrozenFile>, orig: Files)
    requires Apart(r.targets) && Clean(orig, r.targets) && r.status == Started && r.digest == h(Framed(package))
    requires r.operation in w.receipts && w.receipts[r.operation] == r
    requires SwapsDone(orig, w.files, r.targets, 0, PackageTree(package))
    ensures var o := SwapAll(h, w, r);
      && SwapAllEnd(h, w, r, o, package, orig)
      && (w.script == [] ==> o.Go? && o.world.script == [])
      && (CrashOnly(w.script) ==> o.Go? || CleanCrash(r, o, package, orig))
      && (FailOnce(w.script) && o.Halt? ==>
            var d := o.world.receipts[r.operation]; o.why == Io && (d.status == Aborted || AllSwapped(d)))
  {
    SwapFromKeeps(w, r, 0, PackageTree(package), orig);
    var (o, live) := SwapFrom(w, r, 0);
    assert o.Go? ==> AllSwapped(live);
    assert SwapStop(w, r, o, live, PackageTree(package), orig);
    assert Faithful(w, o);
    hide SwapFrom;
    hide SwapsDone;
    hide SwapStop;
    hide SwapAllEnd;
    hide AbortInstall;
    if o.Go? {
      CommitEnds(h, w, r, o, live, package, orig);
    } else if o.why == Io {
      AbortEnds(h, w, r, o, live, package, orig);
    } else {
      CrashEnds(h, w, r, o, live, package, orig);
    }
  }

  // ----- staging

  /** What the caller owes: destinations are not themselves temps or backups. */
  ghost predicate Proper(req: Request) {
    forall i :: 0 <= i < |req.destinations| ==> req.destinations[i].Place?
  }

  ghost predicate OwnTemp(req: Request, p: Path) {
    p.Temp? && p.operation == req.operation && p.nonce == req.nonce
  }

  /** Nothing but temps of this request differs. */
  ghost predicate OnlyTemps(orig: Files, files: Files, req: Request) {
    forall p :: !OwnTemp(req, p) ==> At(orig, p) == At(files, p)
  }

  ghost predicate Planned(req: Request, targets: seq<Target>) {
    && |targets| <= |req.destinations|
    && forall i :: 0 <= i < |targets| ==> targets[i] == MakeTarget(req, i)
  }

  ghost predicate StagedSoFar(orig: Files, files: Files, req: Request, targets: seq<Target>) {
    && Planned(req, targets) && Clean(orig, targets) && OnlyTemps(orig, files, req) && SameOutside(orig, files, targets)
    && forall i :: 0 <= i < |targets| ==> Staged(files, targets[i], PackageTree(req.package), Was(orig, targets[i]))
  }

  lemma PlannedIsApart(req: Request, targets: seq<Target>)
    requires Proper(req) && Distinct(req.destinations) && Planned(req, targets)
    ensures Apart(targets)
  {
  }

  lemma NextIsOutside(req: Request, staged: seq<Target>)
    requires Proper(req) && Distinct(req.destinations) && Planned(req, staged) && |staged| < |req.destinations|
    ensures var t := MakeTarget(req, |staged|);
      Outside(staged, t.temp) && Outside(staged, t.backup) && Outside(staged, t.destination)
  {
    var t := MakeTarget(req, |staged|);
    var next := staged + [t];
    assert Planned(req, next);
    PlannedIsApart(req, next);
    forall i | 0 <= i < |staged| ensures Slots(staged[i]) !! Slots(t) {
      assert next[i] == staged[i] && next[|staged|] == t;
    }
  }

  lemma {:induction false} RemoveTempsKeeps(w: World, targets: seq<Target>, req: Request, orig: Files)
    requires OnlyTemps(orig, w.files, req)
    requires forall i :: 0 <= i < |targets| ==> OwnTemp(req, targets[i].temp)
    ensures var o := RemoveTemps(w, targets);
      OnlyTemps(orig, o.world.files, req) && OnlyFiles(w, o.world) && (o.Halt? ==> o.why == Crash)
    decreases |targets|
  {
    if targets != [] {
      var o := RemoveQuietly(w, targets[0].temp);
      RemoveStep(w, targets[0].temp);
      assert OnlyTemps(orig, o.world.files, req) by {
        forall p | !OwnTemp(req, p) ensures At(orig, p) == At(o.world.files, p) {
          assert p != targets[0].temp;
        }
      }
      hide RemoveQuietly;
      hide OnlyTemps;
      if o.Go? {
        RemoveTempsKeeps(o.world, targets[1..], req, orig);
      }
    }
  }

  lemma StageOne(w: World, req: Request, staged: seq<Target>, orig: Files)
    requires Proper(req) && Distinct(req.destinations) && |staged| < |req.destinations|
    requires StagedSoFar(orig, w.files, req, staged)
    requires var t := MakeTarget(req, |staged|); t.temp !in w.files && t.backup !in w.files
    ensures var o := CopyPackage(w, MakeTarget(req, |staged|).temp, req.package);
      && OnlyFiles(w, o.world) && OnlyTemps(orig, o.world.files, req) && Faithful(w, o)
      && (o.Go? ==> StagedSoFar(orig, o.world.files, req, staged + [MakeTarget(req, |staged|)]))
  {
    var t := MakeTarget(req, |staged|);
    var o := CopyPackage(w, t.temp, req.package);
    assert OwnTemp(req, t.temp);
    assert SameExcept(w.files, o.world.files, {t.temp});
    assert OnlyTemps(orig, o.world.files, req);
    var next := staged + [t];
    if o.Go? {
      assert Planned(req, next);
      NextIsOutside(req, staged);
      forall i | 0 <= i < |next|
        ensures Staged(o.world.files, next[i], PackageTree(req.package), Was(orig, next[i]))
        ensures next[i].temp !in orig && next[i].backup !in orig
      {
        if i < |staged| {
          assert next[i] == staged[i] && t.temp !in Slots(staged[i]);
          assert At(o.world.files, next[i].destination) == At(w.files, next[i].destination);
          assert At(o.world.files, next[i].temp) == At(w.files, next[i].temp);
          assert At(o.world.files, next[i].backup) == At(w.files, next[i].backup);
        } else {
          assert At(orig, t.temp) == At(w.files, t.temp);
          assert At(orig, t.backup) == At(w.files, t.backup);
          assert At(orig, t.destination) == At(w.files, t.destination);
        }
      }
      StagedOutside(w.files, o.world.files, staged, t, orig);
      hide CopyPackage;
      hide OnlyTemps;
    }
  }

  lemma StagedOutside(files: Files, after: Files, staged: seq<Target>, t: Target, orig: Files)
    requires SameOutside(orig, files, staged) && SameExcept(files, after, {t.temp})
    ensures SameOutside(orig, after, staged + [t])
  {
    var next := staged + [t];
    forall p | Outside(next, p) ensures At(orig, p) == At(after, p) {
      assert next[|staged|] == t;
      assert forall i :: 0 <= i < |staged| ==> next[i] == staged[i];
      assert Outside(staged, p) && p != t.temp;
    }
  }

  lemma {:induction false} StageFromKeeps(w: World, req: Request, staged: seq<Target>, orig: Files)
    requires Proper(req) && Distinct(req.destinations) && StagedSoFar(orig, w.files, req, staged)
    ensures var (o, targets) := StageFrom(w, req, staged);
      && OnlyFiles(w, o.world) && OnlyTemps(orig, o.world.files, req)
      && (o.Go? ==> StagedSoFar(orig, o.world.files, req, targets))
      && (w.script == [] && (forall i :: 0 <= i < |req.destinations| ==>
        MakeTarget(req, i).temp !in orig && MakeTarget(req, i).backup !in orig)
          ==> o.Go? && o.world.script == [])
      && (o.Go? && CrashOnly(w.script) ==> CrashOnly(o.world.script))
      && (o.Go? && FailOnce(w.script) ==> FailOnce(o.world.script))
    decreases |req.destinations| - |staged|
  {
    if |staged| < |req.destinations| {
      var t := MakeTarget(req, |staged|);
      NextIsOutside(req, staged);
      assert At(orig, t.temp) == At(w.files, t.temp) && At(orig, t.backup) == At(w.files, t.backup);
      if t.temp !in w.files && t.backup !in w.files {
        var copied := CopyPackage(w, t.temp, req.package);
        StageOne(w, req, staged, orig);
        hide CopyPackage;
        if copied.Go? {
          StageFromKeeps(copied.world, req, staged + [t], orig);
        } else {
          RemoveTempsKeeps(copied.world, staged + [t], req, orig);
        }
      }
    }
  }

  // ----- the whole install

  ghost function Plan(req: Request): (targets: seq<Target>)
    ensures Planned(req, targets) && |targets| == |req.destinations|
  {
    seq(|req.destinations|, i requires 0 <= i < |req.destinations| => MakeTarget(req, i))
  }

  ghost function PlanReceipt(h: Hash, req: Request): Receipt {
    NewReceipt(h, req, Plan(req))
  }

  /**
   No receipt was written: at most temps of this request are left over. A replay of a commit changes nothing at all.
   */
  ghost predicate Unrecorded(h: Hash, w: World, req: Request, o: Outcome) {
    && o.world.receipts == w.receipts && OnlyTemps(w.files, o.world.files, req)
    && (o.Go? ==>
          && req.operation in w.receipts && o.world.files == w.files
          && w.receipts[req.operation].status == Committed && w.receipts[req.operation].digest == PackageDigest(h, req))
  }

  /** The transaction was recorded, and its durable receipt says how it ended. */
  ghost predicate Recorded(h: Hash, w: World, req: Request, o: Outcome) {
    && Distinct(req.destinations) && Clean(w.files, Plan(req))
    && SwapAllEnd(h, w, PlanReceipt(h, req), o, req.package, w.files)
    && (CrashOnly(w.script) ==> o.Go? || CleanCrash(PlanReceipt(h, req), o, req.package, w.files))
  }

  lemma PlanIsUnique(req: Request, targets: seq<Target>)
    requires Planned(req, targets) && |targets| == |req.destinations|
    ensures targets == Plan(req)
  {
  }

  lemma StagedIsReadyToSwap(orig: Files, files: Files, req: Request)
    requires Proper(req) && Distinct(req.destinations) && StagedSoFar(orig, files, req, Plan(req))
    ensures Apart(Plan(req)) && Clean(orig, Plan(req)) && SwapsDone(orig, files, Plan(req), 0, PackageTree(req.package))
  {
    PlannedIsApart(req, Plan(req));
  }

  lemma SwapAllEndSince(h: Hash, w: World, noted: World, r: Receipt, o: Outcome, package: seq<FrozenFile>, orig: Files)
    requires noted.receipts == w.receipts[r.operation := r] && SwapAllEnd(h, noted, r, o, package, orig)
    ensures SwapAllEnd(h, w, r, o, package, orig)
  {
    var d := o.world.receipts[r.operation];
    assert w.receipts[r.operation := r][r.operation := d] == w.receipts[r.operation := d];
  }

  /** With the package staged: either the first receipt is not written, or the transaction is recorded. */
  lemma InstallStagedEnds(h: Hash, w: World, req: Request, orig: Files)
    requires Proper(req) && Distinct(req.destinations) && StagedSoFar(orig, w.files, req, Plan(req))
    ensures var o := InstallStaged(h, w, req, Plan(req));
      var r := PlanReceipt(h, req);
      || (&& o.Halt? && o.world.receipts == w.receipts && OnlyTemps(orig, o.world.files, req) && w.script != [])
      || (&& SwapAllEnd(h, w, r, o, req.package, orig)
          && (w.script == [] ==> o.Go? && o.world.script == [])
          && (CrashOnly(w.script) ==> o.Go? || CleanCrash(r, o, req.package, orig)))
  {
    var r := PlanReceipt(h, req);
    var noted := WriteReceipt(w, r);
    WriteReceiptStep(w, r);
    hide WriteReceipt;
    if noted.Go? {
      StagedIsReadyToSwap(orig, w.files, req);
      hide StagedSoFar;
      hide SwapsDone;
      SwapAllEnds(h, noted.world, r, req.package, orig);
      SwapAllEndSince(h, w, noted.world, r, SwapAll(h, noted.world, r), req.package, orig);
      hide SwapAll;
      hide SwapAllEnd;
      hide CleanCrash;
    } else if noted.why != Crash {
      assert OnlyTemps(orig, noted.world.files, req);
      RemoveTempsKeeps(noted.world, Plan(req), req, orig);
      hide OnlyTemps;
    }
  }

  lemma InstallFreshEnds(h: Hash, w: World, req: Request)
    requires Proper(req)
    ensures var o := InstallFresh(h, w, req);
      && ((o.Halt? && o.world.receipts == w.receipts && OnlyTemps(w.files, o.world.files, req))
        || Recorded(h, w, req, o))
      && (w.script == [] && Distinct(req.destinations) && Clean(w.files, Plan(req)) ==> o.Go? && o.world.script == [])
  {
    if Distinct(req.destinations) {
      assert StagedSoFar(w.files, w.files, req, []);
      StageFromKeeps(w, req, [], w.files);
      var (o, targets) := StageFrom(w, req, []);
      hide StageFrom;
      if o.Go? {
        PlanIsUnique(req, targets);
        hide StagedSoFar;
        hide OnlyTemps;
        InstallStagedEnds(h, o.world, req, w.files);
        hide InstallStaged;
        hide CleanCrash;
        assert Plan(req) == targets;
      }
      assert forall i :: 0 <= i < |req.destinations| ==> Plan(req)[i] == MakeTarget(req, i);
    }
  }

  ghost predicate ReusableId(h: Hash, w: World, req: Request) {
    req.operation in w.receipts ==>
      var previous := w.receipts[req.operation];
      ValidReceipt(previous, req.operation) && previous.digest == PackageDigest(h, req) && Retryable(previous)
  }

  /** What the source checks before it touches a destination. */
  ghost predicate Startable(h: Hash, w: World, req: Request) {
    && !w.locked && 0 < |req.destinations| <= MAX_TARGETS && Distinct(req.destinations) && Clean(w.files, Plan(req))
    && ReusableId(h, w, req)
  }

  /** An earlier receipt of the operation lets the install start afresh, or settles it without any change. */
  lemma EarlierReceiptDecides(h: Hash, w: World, req: Request)
    ensures var o := InstallLocked(h, w, req);
      if ReusableId(h, w, req) then o == InstallFresh(h, w, req)
      else
        && o.world == w && req.operation in w.receipts && (o.Halt? ==> o.why == Corrupt || o.why == Conflict)
        && (o.Go? ==>
              && w.receipts[req.operation].status == Committed
              && w.receipts[req.operation].digest == PackageDigest(h, req))
  {
    hide InstallFresh;
    hide ValidReceipt;
    hide PackageDigest;
  }

  lemma InstallLockedEnds(h: Hash, w: World, req: Request)
    requires Proper(req)
    ensures var o := InstallLocked(h, w, req);
      && (Unrecorded(h, w, req, o) || Recorded(h, w, req, o))
      && (w.script == [] && Distinct(req.destinations) && Clean(w.files, Plan(req)) && ReusableId(h, w, req) ==>
            Recorded(h, w, req, o) && o.Go? && o.world.script == [])
  {
    assert OnlyTemps(w.files, w.files, req);
    EarlierReceiptDecides(h, w, req);
    hide InstallLocked;
    if ReusableId(h, w, req) {
      InstallFreshEnds(h, w, req);
    }
    hide InstallFresh;
    hide ReusableId;
    hide CleanCrash;
    hide OnlyTemps;
    hide Recorded;
    hide Clean;
    hide Distinct;
    hide Plan;
  }

  /** Every input and every script: nothing was recorded, or the durable receipt tells the truth. */
  lemma InstallEnds(h: Hash, w: World, req: Request)
    requires Proper(req)
    ensures var o := Install(h, w, req);
      Unrecorded(h, w, req, o) || Recorded(h, w, req, o)
    ensures w.script == [] && Startable(h, w, req) ==>
              var o := Install(h, w, req);
              && o.Go? && o.world.script == [] && !o.world.locked
              && Recorded(h, w, req, o) && o.world.receipts[req.operation].status == Committed
  {
    if 0 < |req.destinations| <= MAX_TARGETS && Lock(w).Go? {
      InstallLockedEnds(h, Lock(w).world, req);
      hide InstallLocked;
    }
    hide OnlyTemps;
    hide Clean;
    hide Distinct;
    hide ReusableId;
    hide AllRecoverable;
    hide Installed;
  }

  // ----- rollback

  /** No original tree that a rollback would put back hashes like the package. */
  ghost predicate OriginalsDiffer(h: Hash, orig: Files, r: Receipt) {
    forall i :: 0 <= i < |r.targets| && Was(orig, r.targets[i]).Some? ==>
      !HasDigest(h, Was(orig, r.targets[i]).value, r.digest)
  }

  lemma AcceptableIsReady(h: Hash, orig: Files, files: Files, r: Receipt)
    requires AllRecoverable(orig, files, r.targets) && AllAcceptable(h, files, r) && OriginalsDiffer(h, orig, r)
    ensures AllReady(h, orig, files, r.targets, |r.targets|, true, r.digest)
  {
    forall i | 0 <= i < |r.targets|
      ensures Ready(h, files, r.targets[i], true, r.digest, Was(orig, r.targets[i]))
    {
      assert Recoverable(files, r.targets[i], Was(orig, r.targets[i]));
      assert Acceptable(h, files, r.targets[i], r.digest);
    }
  }

  /** A receipt that a rollback would act on, over an original map it can still be undone to. */
  ghost predicate Undoable(w: World, operation: string, orig: Files) {
    && operation in w.receipts
    && var r := w.receipts[operation];
    && r.operation == operation && r.status != Aborted && Apart(r.targets) && Clean(orig, r.targets)
    && AllRecoverable(orig, w.files, r.targets)
  }

  /** How a rollback attempt ends: undone, or still undoable; refused attempts change no file. */
  ghost predicate Attempted(w: World, operation: string, orig: Files, o: Outcome)
    requires operation in w.receipts
  {
    || (o.Go? && o.world.files == orig && o.world.receipts == w.receipts[operation := Closed(w.receipts[operation])])
    || (&& o.Halt? && Undoable(o.world, operation, orig) && o.world.receipts == w.receipts
        && (o.why == Conflict ==> o.world.files == w.files))
  }

  lemma RollbackLockedFromReady(h: Hash, w: World, operation: string, orig: Files)
    requires Undoable(w, operation, orig)
    requires var r := w.receipts[operation];
      AllAcceptable(h, w.files, r) ==> AllReady(h, orig, w.files, r.targets, |r.targets|, true, r.digest)
    ensures var r := w.receipts[operation];
      var o := RollbackLocked(h, w, r);
      && Attempted(w, operation, orig, o)
      && (w.script == [] ==> (o.Go? <==> AllAcceptable(h, w.files, r)) && (o.Go? ==> o.world.script == []))
  {
    var r := w.receipts[operation];
    if AllAcceptable(h, w.files, r) {
      hide AllAcceptable;
      RestoreDownKeeps(h, w, r.targets, r.targets, |r.targets|, true, r.digest, orig);
      var restored := RestoreDown(h, w, r.targets, |r.targets|, true, r.digest);
      hide RestoreDown;
      hide AllReady;
      if restored.Go? {
        ReturnedIsOriginal(orig, restored.world.files, r.targets);
        WriteReceiptStep(restored.world, Closed(r));
        hide WriteReceipt;
      }
    }
  }

  /** One attempt under any script, when acceptance is enough to be ready. */
  lemma RollbackFromReady(h: Hash, w: World, operation: string, orig: Files)
    requires Undoable(w, operation, orig)
    requires var r := w.receipts[operation];
      AllAcceptable(h, w.files, r) ==> AllReady(h, orig, w.files, r.targets, |r.targets|, true, r.digest)
    ensures var o := Rollback(h, w, operation);
      && Attempted(w, operation, orig, o)
      && (w.script == [] && !w.locked ==>
            && (o.Go? <==> AllAcceptable(h, w.files, w.receipts[operation]))
            && (o.Go? ==> o.world.script == [] && !o.world.locked))
  {
    hide RollbackLocked;
    if Lock(w).Go? {
      RollbackLockedFromReady(h, Lock(w).world, operation, orig);
    }
    hide AllAcceptable;
    hide AllRecoverable;
    hide AllReady;
    hide Apart;
    hide Clean;
  }

  /** Crash and rerun a rollback any number of times: run k meets the events of scripts[k]. */
  function Reruns(h: Hash, w: World, operation: string, scripts: seq<seq<Event>>): World
    decreases |scripts|
  {
    if scripts == [] then w
    else Reruns(h, Rollback(h, Reboot(w, scripts[0]), operation).world, operation, scripts[1..])
  }

  /** After any number of interrupted reruns the transaction is undone or still undoable. */
  lemma {:induction false} RerunsKeepUndoable(h: Hash, w: World, operation: string, orig: Files,
      scripts: seq<seq<Event>>)
    requires Undoable(w, operation, orig) && OriginalsDiffer(h, orig, w.receipts[operation])
    ensures var last := Reruns(h, w, operation, scripts);
      && operation in last.receipts
      && if last.receipts[operation].status == Aborted then last.files == orig
         else last.receipts == w.receipts && Undoable(last, operation, orig)
    decreases |scripts|
  {
    if scripts != [] {
      var again := Reboot(w, scripts[0]);
      if AllAcceptable(h, again.files, again.receipts[operation]) {
        AcceptableIsReady(h, orig, again.files, again.receipts[operation]);
      }
      RollbackFromReady(h, again, operation, orig);
      var o := Rollback(h, again, operation);
      if o.Go? {
        RerunsOfAborted(h, o.world, operation, scripts[1..]);
      } else {
        RerunsKeepUndoable(h, o.world, operation, orig, scripts[1..]);
      }
    }
  }

  /** Rolling back an aborted transaction changes no file and no receipt. */
  lemma {:induction false} RerunsOfAborted(h: Hash, w: World, operation: string, scripts: seq<seq<Event>>)
    requires operation in w.receipts && w.receipts[operation].status == Aborted
    ensures var last := Reruns(h, w, operation, scripts); last.files == w.files && last.receipts == w.receipts
    decreases |scripts|
  {
    if scripts != [] {
      RerunsOfAborted(h, Rollback(h, Reboot(w, scripts[0]), operation).world, operation, scripts[1..]);
    }
  }

  // ----- main results

  /** A crash, or a failure that could not be undone, leaves a transaction that recovery can take up. */
  lemma RecordedIsUndoable(h: Hash, w: World, req: Request, o: Outcome)
    requires Proper(req) && Recorded(h, w, req, o)
    requires o.world.receipts[req.operation].status != Aborted
    ensures Undoable(o.world, req.operation, w.files)
  {
    var d := o.world.receipts[req.operation];
    PlannedIsApart(req, Plan(req));
    SameOutsideRephased(w.files, o.world.files, d, PlanReceipt(h, req).(status := d.status));
    if d.status == Committed {
      InFlightIsReady(h, w.files, o.world.files, d.targets, req.package);
    }
    hide AllRecoverable;
    hide AllInFlight;
    hide Apart;
    hide CleanCrash;
    hide SameOutside;
  }
}
