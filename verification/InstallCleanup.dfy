/** What a failed install leaves behind when no receipt was written: nothing that it did not try to delete. */
module InstallCleanup {
  import opened InstallModel
  import opened RestoreProofs
  import opened SwapProofs
  import opened InstallTheorems

  // ----- leftovers

  ghost predicate IsTempOf(targets: seq<Target>, p: Path) {
    exists i :: 0 <= i < |targets| && targets[i].temp == p
  }

  /** A deletion of `p` was begun between the two worlds. */
  ghost predicate Tried(since: World, now: World, p: Path) {
    exists k :: |since.deleted| <= k < |now.deleted| && now.deleted[k].path == p
  }

  /** Wherever the files differ from those of `since`, a temp of these targets stands or a deletion was begun. */
  ghost predicate Untidy(since: World, now: World, targets: seq<Target>) {
    && since.deleted <= now.deleted
    && forall p :: At(now.files, p) != At(since.files, p) ==> IsTempOf(targets, p) || Tried(since, now, p)
  }

  /** Wherever they differ a deletion was begun; a path that is still there is one whose deletion failed. */
  ghost predicate Tidied(since: World, now: World) {
    forall p :: At(now.files, p) != At(since.files, p) ==> Tried(since, now, p)
  }

  /** The temps of these targets may be there, nothing else differs, and nothing was deleted. */
  ghost predicate OnlyStaged(since: World, now: World, targets: seq<Target>) {
    && now.deleted == since.deleted
    && forall p :: At(now.files, p) != At(since.files, p) ==> IsTempOf(targets, p)
  }

  ghost predicate NoTempsIn(files: Files, targets: seq<Target>) {
    forall i :: 0 <= i < |targets| ==> targets[i].temp !in files
  }

  lemma SameFiles(f: Files, g: Files)
    requires forall p :: At(f, p) == At(g, p)
    ensures f == g
  {
    assert forall p :: p in f <==> At(f, p).Some?;
    assert forall p :: p in g <==> At(g, p).Some?;
  }

  // ----- the clean-up

  lemma RemoveQuietlyTries(w: World, p: Path)
    ensures var o := RemoveQuietly(w, p);
      && o.world.receipts == w.receipts && SameExcept(w.files, o.world.files, {p}) && (o.Halt? ==> o.why == Crash)
      && o.world.deleted == w.deleted + (if p in w.files then [Deletion(p, w.files[p])] else [])
      && (p !in w.files ==> o == Go(w))
      && (w.script == [] ==> o.Go? && o.world.script == [] && p !in o.world.files)
  {
  }

  lemma TriesFirst(since: World, w: World, next: World, targets: seq<Target>)
    requires targets != [] && Untidy(since, w, targets) && NoTempsIn(since.files, targets)
    requires var p := targets[0].temp;
      && SameExcept(w.files, next.files, {p}) && (p !in w.files ==> next.files == w.files)
      && next.deleted == w.deleted + if p in w.files then [Deletion(p, w.files[p])] else []
    ensures Untidy(since, next, targets[1..])
  {
    var rest := targets[1..];
    forall q | At(next.files, q) != At(since.files, q) ensures IsTempOf(rest, q) || Tried(since, next, q) {
      if q == targets[0].temp {
        assert q in w.files;
        assert next.deleted[|w.deleted|].path == q;
      } else if IsTempOf(targets, q) {
        var i :| 0 <= i < |targets| && targets[i].temp == q;
        assert rest[i - 1].temp == q;
      } else {
        var k :| |since.deleted| <= k < |w.deleted| && w.deleted[k].path == q;
        assert next.deleted[k].path == q;
      }
    }
  }

  /** Every temp that stands is tried; without faults none is left. */
  lemma {:induction false} RemoveTempsTidies(since: World, w: World, targets: seq<Target>)
    requires Untidy(since, w, targets) && NoTempsIn(since.files, targets)
    ensures var o := RemoveTemps(w, targets);
      && o.world.receipts == w.receipts
      && if o.Halt? then o.why == Crash && w.script != [] else Tidied(since, o.world)
    decreases |targets|
  {
    if targets != [] {
      var o := RemoveQuietly(w, targets[0].temp);
      RemoveQuietlyTries(w, targets[0].temp);
      hide RemoveQuietly;
      TriesFirst(since, w, o.world, targets);
      hide Untidy;
      if o.Go? { RemoveTempsTidies(since, o.world, targets[1..]); }
    }
  }

  lemma {:induction false} RemoveTempsClears(w: World, orig: Files, targets: seq<Target>)
    requires w.script == [] && NoTempsIn(orig, targets)
    requires forall p :: At(w.files, p) != At(orig, p) ==> IsTempOf(targets, p)
    ensures var o := RemoveTemps(w, targets); o.Go? && o.world.files == orig
    decreases |targets|
  {
    if targets == [] {
      SameFiles(w.files, orig);
    } else {
      var o, rest := RemoveQuietly(w, targets[0].temp), targets[1..];
      RemoveQuietlyTries(w, targets[0].temp);
      hide RemoveQuietly;
      forall p | At(o.world.files, p) != At(orig, p) ensures IsTempOf(rest, p) {
        assert p != targets[0].temp;
        var i :| 0 <= i < |targets| && targets[i].temp == p;
        assert rest[i - 1].temp == p;
      }
      RemoveTempsClears(o.world, orig, rest);
    }
  }

  /** How a failure that records nothing ends. */
  ghost predicate CleanFailure(since: World, o: Outcome) {
    && o.Halt? && (o.why == Io || o.why == Crash) && (o.why != Crash ==> Tidied(since, o.world))
    && (FailOnce(since.script) ==> o.why != Crash && o.world.files == since.files)
  }

  /** After one failed step the rest of the script is empty, or the process is dead. */
  ghost predicate Failed(since: World, o: Outcome) {
    o.Halt? && (o.why == Io || o.why == Crash) && (FailOnce(since.script) ==> o.why == Io && o.world.script == [])
  }

  lemma DropTempsTidies(since: World, o: Outcome, targets: seq<Target>)
    requires Failed(since, o) && OnlyStaged(since, o.world, targets) && NoTempsIn(since.files, targets)
    ensures CleanFailure(since, DropTemps(o, targets))
    ensures DropTemps(o, targets).world.receipts == o.world.receipts
  {
    if o.why != Crash {
      RemoveTempsTidies(since, o.world, targets);
      if o.world.script == [] { RemoveTempsClears(o.world, since.files, targets); }
      hide RemoveTemps;
      hide Tidied;
    }
  }

  // ----- staging

  /** What a successful step keeps for the ones that follow. */
  ghost predicate OnCourse(since: World, now: World, targets: seq<Target>) {
    && OnlyStaged(since, now, targets) && (FailOnce(since.script) ==> FailOnce(now.script))
  }

  lemma CopyStages(since: World, w: World, req: Request, staged: seq<Target>)
    requires OnCourse(since, w, staged) && |staged| < |req.destinations|
    ensures var t := MakeTarget(req, |staged|);
      var o := CopyPackage(w, t.temp, req.package);
      && OnlyStaged(since, o.world, staged + [t]) && o.world.receipts == w.receipts
      && (if o.Go? then OnCourse(since, o.world, staged + [t]) else Failed(since, o))
  {
    var t := MakeTarget(req, |staged|);
    var o := CopyPackage(w, t.temp, req.package);
    var next := staged + [t];
    assert SameExcept(w.files, o.world.files, {t.temp});
    forall p | At(o.world.files, p) != At(since.files, p) ensures IsTempOf(next, p) {
      if p == t.temp {
        assert next[|staged|].temp == p;
      } else {
        var i :| 0 <= i < |staged| && staged[i].temp == p;
        assert next[i].temp == p;
      }
    }
  }

  /** Names of temps and backups that are free stay free until their turn. */
  lemma TurnIsFree(since: World, w: World, req: Request, staged: seq<Target>)
    requires Proper(req) && Distinct(req.destinations) && Planned(req, staged) && |staged| < |req.destinations|
    requires OnlyStaged(since, w, staged) && Clean(since.files, Plan(req))
    ensures var t := MakeTarget(req, |staged|); t.temp !in w.files && t.backup !in w.files
  {
    var t := MakeTarget(req, |staged|);
    assert Plan(req)[|staged|] == t;
    NextIsOutside(req, staged);
    assert !IsTempOf(staged, t.temp) && !IsTempOf(staged, t.backup) by {
      assert forall i :: 0 <= i < |staged| ==> staged[i].temp in Slots(staged[i]);
    }
    assert At(w.files, t.temp) == At(since.files, t.temp) && At(w.files, t.backup) == At(since.files, t.backup);
  }

  lemma {:induction false} StagingTidies(since: World, w: World, req: Request, staged: seq<Target>)
    requires Proper(req) && Distinct(req.destinations) && Clean(since.files, Plan(req))
    requires Planned(req, staged) && OnCourse(since, w, staged)
    ensures var (o, targets) := StageFrom(w, req, staged);
      && o.world.receipts == w.receipts
      && if o.Go? then Planned(req, targets) && OnCourse(since, o.world, targets) else CleanFailure(since, o)
    decreases |req.destinations| - |staged|
  {
    hide CopyPackage;
    hide DropTemps;
    if |staged| < |req.destinations| {
      var t := MakeTarget(req, |staged|);
      TurnIsFree(since, w, req, staged);
      CopyStages(since, w, req, staged);
      var copied, next := CopyPackage(w, t.temp, req.package), staged + [t];
      assert Planned(req, next);
      hide OnCourse;
      hide Failed;
      if copied.Go? {
        StagingTidies(since, copied.world, req, next);
      } else {
        PlannedIsNew(since.files, req, next);
        DropTempsTidies(since, copied, next);
      }
    }
  }

  lemma PlannedIsNew(orig: Files, req: Request, targets: seq<Target>)
    requires Planned(req, targets) && Clean(orig, Plan(req))
    ensures NoTempsIn(orig, targets)
  {
    assert forall i :: 0 <= i < |targets| ==> targets[i] == Plan(req)[i];
  }

  /** The first receipt is written, or nothing is left that was not tried. */
  lemma FirstReceiptTidies(h: Hash, since: World, w: World, req: Request)
    requires Clean(since.files, Plan(req)) && OnCourse(since, w, Plan(req))
    ensures var r := PlanReceipt(h, req);
      || WriteReceipt(w, r).Go?
      || (CleanFailure(since, InstallStaged(h, w, req, Plan(req)))
          && InstallStaged(h, w, req, Plan(req)).world.receipts == w.receipts)
  {
    var noted := WriteReceipt(w, PlanReceipt(h, req));
    if noted.Halt? {
      assert Failed(since, noted) && OnlyStaged(since, noted.world, Plan(req));
      PlannedIsNew(since.files, req, Plan(req));
      DropTempsTidies(since, noted, Plan(req));
    }
    hide DropTemps;
    hide SwapAll;
  }

  // ----- the whole install

  /** A transaction that got its first receipt cannot end with the receipts as they were, unless it was undone. */
  lemma RecordedIsUndone(h: Hash, w: World, req: Request, o: Outcome)
    requires SwapAllEnd(h, w, PlanReceipt(h, req), o, req.package, w.files) && ReusableId(h, w, req)
    requires o.Halt? && o.world.receipts == w.receipts
    ensures o.world.files == w.files
  {
    hide AllRecoverable;
    hide ValidReceipt;
  }

  lemma FreshInstallTidies(h: Hash, w: World, req: Request)
    requires Proper(req) && Distinct(req.destinations) && Clean(w.files, Plan(req)) && ReusableId(h, w, req)
    ensures var o := InstallFresh(h, w, req);
      && (o.Halt? ==> o.why == Io || o.why == Crash)
      && (o.Halt? && o.world.receipts == w.receipts ==> CleanFailure(w, o) || o.world.files == w.files)
  {
    StagingTidies(w, w, req, []);
    var (staged, targets) := StageFrom(w, req, []);
    hide StageFrom;
    if staged.Go? {
      PlanIsUnique(req, targets);
      FirstReceiptTidies(h, w, staged.world, req);
      if WriteReceipt(staged.world, PlanReceipt(h, req)).Go? {
        StagedInstallIsUndone(h, w, req);
      }
    }
    hide InstallStaged;
    hide WriteReceipt;
    hide CleanFailure;
  }

  lemma StagedInstallIsUndone(h: Hash, w: World, req: Request)
    requires Proper(req) && Distinct(req.destinations) && Clean(w.files, Plan(req)) && ReusableId(h, w, req)
    requires StageFrom(w, req, []) == (StageFrom(w, req, []).0, Plan(req)) && StageFrom(w, req, []).0.Go?
    requires WriteReceipt(StageFrom(w, req, []).0.world, PlanReceipt(h, req)).Go?
    ensures var o := InstallFresh(h, w, req);
      && (o.Halt? ==> o.why == Io || o.why == Crash)
      && (o.Halt? && o.world.receipts == w.receipts ==> o.world.files == w.files)
  {
    var staged := StageFrom(w, req, []).0.world;
    assert StagedSoFar(w.files, w.files, req, []);
    StageFromKeeps(w, req, [], w.files);
    hide StageFrom;
    var r := PlanReceipt(h, req);
    var noted := WriteReceipt(staged, r).world;
    assert noted.files == staged.files && noted.receipts == w.receipts[r.operation := r];
    StagedIsReadyToSwap(w.files, staged.files, req);
    hide StagedSoFar;
    hide SwapsDone;
    hide WriteReceipt;
    SwapAllEnds(h, noted, r, req.package, w.files);
    SwapAllEndSince(h, w, noted, r, SwapAll(h, noted, r), req.package, w.files);
    var o := SwapAll(h, noted, r);
    hide SwapAll;
    hide CleanCrash;
    if o.Halt? && o.world.receipts == w.receipts { RecordedIsUndone(h, w, req, o); }
    hide SwapAllEnd;
  }

  /**
   An install that is refused or fails with the receipts as they were, all its names having been free: whatever it
   left, it had tried to delete, unless it died; after a single failed step nothing is left at all.
   */
  lemma FailedInstallTidies(h: Hash, w: World, req: Request)
    requires Proper(req) && Distinct(req.destinations) && Clean(w.files, Plan(req))
    ensures var o := Install(h, w, req);
      o.Halt? && o.world.receipts == w.receipts ==>
        && (o.why != Crash ==> Tidied(w, o.world))
        && (FailOnce(w.script) ==> o.world.files == w.files)
  {
    var locked := Lock(w);
    if locked.Go? {
      EarlierReceiptDecides(h, locked.world, req);
      if ReusableId(h, locked.world, req) { FreshInstallTidies(h, locked.world, req); }
      assert CleanFailure(locked.world, InstallFresh(h, locked.world, req)) ==>
        CleanFailure(w, InstallFresh(h, locked.world, req));
      hide InstallLocked;
      hide InstallFresh;
    }
    hide Clean;
    hide ReusableId;
    hide Plan;
  }

  // ----- what is reported

  /** The one case in which an earlier receipt of the operation makes the call a success at once. */
  ghost predicate ReplaysCommit(h: Hash, w: World, req: Request) {
    && req.operation in w.receipts && ValidReceipt(w.receipts[req.operation], req.operation)
    && w.receipts[req.operation].digest == PackageDigest(h, req) && w.receipts[req.operation].status == Committed
  }

  /**
   What an install reports once it has the lock: every refusal has its code and changes nothing, everything else fails
   with an input/output error or dies.
   */
  lemma InstallReports(h: Hash, w: World, req: Request)
    requires Proper(req) && !w.locked && Peek(w).Done?
    ensures var o := Install(h, w, req);
      if !(0 < |req.destinations| <= MAX_TARGETS) then o == Halt(w, InvalidManifest)
      else if ReplaysCommit(h, w, req) then o.Go?
      else if !ReusableId(h, w, req) then
        && o.Halt? && o.world.files == w.files && o.world.receipts == w.receipts
        && o.why == if ValidReceipt(w.receipts[req.operation], req.operation) then Conflict else Corrupt
      else if !Distinct(req.destinations) then
        o.Halt? && o.why == UnsafePath && o.world.files == w.files && o.world.receipts == w.receipts
      else
        o.Halt? ==> o.why == Io || o.why == Crash || (o.why == Conflict && !Clean(w.files, Plan(req)))
  {
    if 0 < |req.destinations| <= MAX_TARGETS {
      var locked := Lock(w).world;
      assert ReusableId(h, locked, req) <==> ReusableId(h, w, req);
      EarlierReceiptDecides(h, locked, req);
      if ReusableId(h, w, req) && Distinct(req.destinations) {
        if Clean(w.files, Plan(req)) {
          FreshInstallTidies(h, locked, req);
        } else {
          StagingReports(locked, req, []);
          var (staged, targets) := StageFrom(locked, req, []);
          if staged.Go? {
            assert StagedSoFar(w.files, w.files, req, []);
            StageFromKeeps(locked, req, [], w.files);
            PlanIsUnique(req, targets);
            assert false;
          }
        }
        hide InstallStaged;
      }
      hide StageFrom;
    }
    hide Clean;
    hide Plan;
    hide ValidReceipt;
    hide PackageDigest;
  }

  lemma {:induction false} StagingReports(w: World, req: Request, staged: seq<Target>)
    requires |staged| <= |req.destinations|
    ensures var o := StageFrom(w, req, staged).0; o.Halt? ==> o.why == Io || o.why == Crash || o.why == Conflict
    decreases |req.destinations| - |staged|
  {
    if |staged| < |req.destinations| {
      var t := MakeTarget(req, |staged|);
      var copied := CopyPackage(w, t.temp, req.package);
      if copied.Go? {
        StagingReports(copied.world, req, staged + [t]);
      } else {
        RemoveTempsDies(copied.world, staged + [t]);
      }
    }
  }

  lemma {:induction false} RemoveTempsDies(w: World, targets: seq<Target>)
    ensures RemoveTemps(w, targets).Halt? ==> RemoveTemps(w, targets).why == Crash
    decreases |targets|
  {
    if targets != [] {
      var o := RemoveQuietly(w, targets[0].temp);
      if o.Go? { RemoveTempsDies(o.world, targets[1..]); }
    }
  }
}
