/** Reconciling several started installs at once: each is rolled back as it would be alone. */
module InstallReconcile {
  import opened InstallModel
  import opened RestoreProofs
  import opened InstallTheorems
  import opened InstallRefusals

  // ----- a fault-free rollback reads and writes the slots of its own targets only

  ghost predicate SameAt(f: Files, g: Files, t: Target) {
    && At(f, t.destination) == At(g, t.destination) && At(f, t.temp) == At(g, t.temp)
    && At(f, t.backup) == At(g, t.backup)
  }

  ghost predicate SameAtAll(f: Files, g: Files, targets: seq<Target>) {
    forall i :: 0 <= i < |targets| ==> SameAt(f, g, targets[i])
  }

  ghost predicate FaultFree(w: World) {
    w.script == []
  }

  /** The same result at a target and no event left over. */
  ghost predicate SameEnd(o: Outcome, q: Outcome) {
    (o.Go? <==> q.Go?) && (o.Halt? && q.Halt? ==> o.why == q.why) && FaultFree(o.world) && FaultFree(q.world)
  }

  lemma PutBackLocal(v: World, w: World, t: Target)
    requires FaultFree(v) && FaultFree(w) && SelfApart(t) && SameAt(v.files, w.files, t)
    ensures var o, q := PutBack(v, t), PutBack(w, t); SameEnd(o, q) && SameAt(o.world.files, q.world.files, t)
  {
  }

  lemma BringBackLocal(h: Hash, v: World, w: World, t: Target, digest: string)
    requires FaultFree(v) && FaultFree(w) && SelfApart(t) && SameAt(v.files, w.files, t)
    ensures var o, q := BringBack(h, v, t, true, digest), BringBack(h, w, t, true, digest);
      SameEnd(o, q) && SameAt(o.world.files, q.world.files, t)
  {
    PutBackLocal(v, w, t);
    hide PutBack;
    hide HasDigest;
  }

  lemma RestoreTargetLocal(h: Hash, v: World, w: World, t: Target, digest: string)
    requires FaultFree(v) && FaultFree(w) && SelfApart(t) && SameAt(v.files, w.files, t)
    ensures var o, q := RestoreTarget(h, v, t, true, digest), RestoreTarget(h, w, t, true, digest);
      SameEnd(o, q) && SameAt(o.world.files, q.world.files, t)
  {
    BringBackLocal(h, v, w, t, digest);
    hide BringBack;
  }

  lemma {:induction false} RestoreDownLocal(h: Hash, v: World, w: World, targets: seq<Target>, n: nat, digest: string)
    requires FaultFree(v) && FaultFree(w) && Apart(targets) && n <= |targets| && SameAtAll(v.files, w.files, targets)
    ensures var o, q := RestoreDown(h, v, targets, n, true, digest), RestoreDown(h, w, targets, n, true, digest);
      SameEnd(o, q) && SameAtAll(o.world.files, q.world.files, targets)
    decreases n
  {
    hide RestoreTarget;
    if n > 0 {
      var t := targets[n - 1];
      var o, q := RestoreTarget(h, v, t, true, digest), RestoreTarget(h, w, t, true, digest);
      RestoreTargetLocal(h, v, w, t, digest);
      RestoreTargetTouches(h, v, t, true, digest);
      RestoreTargetTouches(h, w, t, true, digest);
      forall i | 0 <= i < |targets| ensures SameAt(o.world.files, q.world.files, targets[i]) {
        if i != n - 1 { assert Slots(targets[i]) !! Slots(t); }
      }
      if o.Go? { RestoreDownLocal(h, o.world, q.world, targets, n - 1, digest); }
    }
  }

  lemma AcceptableLocal(h: Hash, f: Files, g: Files, r: Receipt)
    requires SameAtAll(f, g, r.targets)
    ensures AllAcceptable(h, f, r) <==> AllAcceptable(h, g, r)
  {
    forall i | 0 <= i < |r.targets| ensures Acceptable(h, f, r.targets[i], r.digest) <==>
      Acceptable(h, g, r.targets[i], r.digest) {
      assert SameAt(f, g, r.targets[i]);
    }
  }

  /** A started receipt in a world without faults and without a lock. */
  ghost predicate Calm(w: World) {
    FaultFree(w) && !w.locked
  }

  ghost predicate IsStarted(w: World, operation: string) {
    operation in w.receipts && w.receipts[operation].status == Started
  }

  /** What a fault-free rollback of a started receipt leaves alone. */
  lemma RollbackTouches(h: Hash, w: World, operation: string)
    requires Calm(w) && IsStarted(w, operation) && w.receipts[operation].operation == operation
    requires Apart(w.receipts[operation].targets)
    ensures var r := w.receipts[operation];
      var o := Rollback(h, w, operation);
      && (forall p :: Outside(r.targets, p) ==> At(o.world.files, p) == At(w.files, p))
      && (o.Halt? ==> o.why == Conflict && o.world.receipts == w.receipts)
      && (o.Go? ==> Calm(o.world) && o.world.receipts == w.receipts[operation := Closed(r)])
  {
    var r := w.receipts[operation];
    var locked := Lock(w).world;
    RestoreDownTouches(h, locked, r.targets, |r.targets|, true, r.digest);
    RestoreDownLocal(h, locked, locked, r.targets, |r.targets|, r.digest);
    RestoreDownOnly(h, locked, r.targets, |r.targets|, r.digest);
    RefusalLeavesFiles(h, w, operation);
    hide RestoreDown;
    hide AllAcceptable;
    hide AnyBlocked;
    hide QuietAbove;
    hide Apart;
  }

  lemma {:induction false} RestoreDownOnly(h: Hash, w: World, targets: seq<Target>, n: nat, digest: string)
    requires n <= |targets|
    ensures OnlyFiles(w, RestoreDown(h, w, targets, n, true, digest).world)
    decreases n
  {
    if n > 0 {
      var o := RestoreTarget(h, w, targets[n - 1], true, digest);
      assert OnlyFiles(w, o.world) by { RestoreTargetOnly(h, w, targets[n - 1], digest); }
      hide RestoreTarget;
      if o.Go? { RestoreDownOnly(h, o.world, targets, n - 1, digest); }
    }
  }

  lemma RestoreTargetOnly(h: Hash, w: World, t: Target, digest: string)
    ensures OnlyFiles(w, RestoreTarget(h, w, t, true, digest).world)
  {
    RenameStep(w, t.backup, t.destination);
    RemoveStep(w, t.destination);
    RenameStep(RemoveIfPresent(w, t.destination).world, t.backup, t.destination);
    RemoveStep(BringBack(h, w, t, true, digest).world, t.temp);
    hide Rename;
    hide RemoveIfPresent;
  }

  lemma RollbackLocal(h: Hash, v: World, w: World, operation: string)
    requires Calm(v) && Calm(w) && IsStarted(v, operation) && IsStarted(w, operation)
    requires v.receipts[operation] == w.receipts[operation] && w.receipts[operation].operation == operation
    requires var targets := w.receipts[operation].targets; Apart(targets) && SameAtAll(v.files, w.files, targets)
    ensures var o, q := Rollback(h, v, operation), Rollback(h, w, operation);
      (o.Go? <==> q.Go?) && SameAtAll(o.world.files, q.world.files, w.receipts[operation].targets)
  {
    var r := w.receipts[operation];
    RestoreDownLocal(h, Lock(v).world, Lock(w).world, r.targets, |r.targets|, r.digest);
    AcceptableLocal(h, v.files, w.files, r);
    hide RestoreDown;
    hide AllAcceptable;
    hide SameAtAll;
    hide Apart;
  }

  // ----- listings

  ghost predicate Strangers(r: Receipt, s: Receipt) {
    forall p :: Outside(r.targets, p) || Outside(s.targets, p)
  }

  /** Valid receipts, none listed twice; the started ones share no path. */
  ghost predicate Independent(w: World, listing: seq<string>) {
    && (forall i :: 0 <= i < |listing| ==>
          && listing[i] in w.receipts && ValidReceipt(w.receipts[listing[i]], listing[i])
          && (IsStarted(w, listing[i]) ==> Apart(w.receipts[listing[i]].targets)))
    && (forall i, j :: 0 <= i < j < |listing| ==> listing[i] != listing[j])
    && forall i, j :: 0 <= i < j < |listing| && IsStarted(w, listing[i]) && IsStarted(w, listing[j]) ==>
         Strangers(w.receipts[listing[i]], w.receipts[listing[j]])
  }

  ghost predicate Listed(w: World, listing: seq<string>) {
    forall i :: 0 <= i < |listing| ==> listing[i] in w.receipts
  }

  /** Reconcile gets as far as k: the started receipts before it can be rolled back alone, the one at k cannot. */
  ghost predicate StopsAt(h: Hash, w: World, listing: seq<string>, k: nat, o: Outcome) {
    && k <= |listing| && (o.Go? <==> k == |listing|) && (o.Halt? ==> o.why == Conflict)
    && (forall i :: 0 <= i < k && IsStarted(w, listing[i]) ==> Rollback(h, w, listing[i]).Go?)
    && (k < |listing| ==> IsStarted(w, listing[k]) && Rollback(h, w, listing[k]).Halt?)
  }

  /** At the slots of each started receipt up to k stands what its rollback alone would leave. */
  ghost predicate AsAlone(h: Hash, w: World, listing: seq<string>, k: nat, files: Files)
    requires Listed(w, listing)
  {
    forall i :: 0 <= i <= k && i < |listing| && IsStarted(w, listing[i]) ==>
      SameAtAll(files, Rollback(h, w, listing[i]).world.files, w.receipts[listing[i]].targets)
  }

  /** A path of none of the started receipts up to k. */
  ghost predicate Unlisted(w: World, listing: seq<string>, k: nat, p: Path)
    requires Listed(w, listing)
  {
    forall i :: 0 <= i <= k && i < |listing| && IsStarted(w, listing[i]) ==> Outside(w.receipts[listing[i]].targets, p)
  }

  ghost predicate OthersKept(w: World, listing: seq<string>, k: nat, files: Files)
    requires Listed(w, listing)
  {
    forall p :: Unlisted(w, listing, k, p) ==> At(files, p) == At(w.files, p)
  }

  ghost predicate ClosedBefore(w: World, listing: seq<string>, k: nat, receipts: map<string, Receipt>)
    requires k <= |listing|
  {
    && receipts.Keys == w.receipts.Keys
    && forall op :: op in w.receipts ==>
         receipts[op] == if op in listing[..k] && IsStarted(w, op) then Closed(w.receipts[op]) else w.receipts[op]
  }

  /** The started receipts before k are rolled back, the one at k (if any) is refused, each as it would be alone. */
  ghost predicate EachAlone(h: Hash, w: World, listing: seq<string>, k: nat, o: Outcome) {
    && Listed(w, listing) && StopsAt(h, w, listing, k, o)
    && AsAlone(h, w, listing, k, o.world.files) && OthersKept(w, listing, k, o.world.files)
    && ClosedBefore(w, listing, k, o.world.receipts)
  }

  lemma IndependentRest(w: World, v: World, listing: seq<string>)
    requires Independent(w, listing) && listing != []
    requires forall op :: op in w.receipts && op != listing[0] ==> op in v.receipts && v.receipts[op] == w.receipts[op]
    ensures Independent(v, listing[1..])
    ensures forall i :: 1 <= i < |listing| ==> IsStarted(v, listing[i]) == IsStarted(w, listing[i])
  {
    hide ValidReceipt;
    hide Strangers;
    hide Apart;
    var rest := listing[1..];
    assert forall i :: 0 <= i < |rest| ==> rest[i] == listing[i + 1] && rest[i] != listing[0];
  }

  /** A settled receipt at the head of the listing changes nothing. */
  lemma SettledHead(h: Hash, w: World, listing: seq<string>, k: nat, o: Outcome)
    requires Listed(w, listing) && listing != [] && !IsStarted(w, listing[0]) && EachAlone(h, w, listing[1..], k, o)
    ensures EachAlone(h, w, listing, k + 1, o)
  {
    hide Rollback;
    hide SameAtAll;
    hide IsStarted;
    hide Outside;
    var rest := listing[1..];
    assert forall i :: 0 <= i < |rest| ==> rest[i] == listing[i + 1];
    assert forall i :: 1 <= i < |listing| ==> listing[i] == rest[i - 1];
    assert listing[..k + 1] == [listing[0]] + rest[..k];
    assert forall p :: Unlisted(w, listing, k + 1, p) ==> Unlisted(w, rest, k, p);
  }

  lemma SameAtOutside(f: Files, g: Files, r: Receipt, s: Receipt)
    requires Strangers(r, s) && forall p :: Outside(r.targets, p) ==> At(f, p) == At(g, p)
    ensures SameAtAll(f, g, s.targets)
  {
    forall i | 0 <= i < |s.targets| ensures SameAt(f, g, s.targets[i]) {
      var t := s.targets[i];
      assert forall p :: p in Slots(t) ==> !Outside(s.targets, p);
      assert t.destination in Slots(t) && t.temp in Slots(t) && t.backup in Slots(t);
    }
  }

  lemma SameAtChain(f: Files, g: Files, e: Files, targets: seq<Target>)
    requires SameAtAll(f, g, targets) && SameAtAll(g, e, targets)
    ensures SameAtAll(f, e, targets)
  {
  }

  /** A started receipt at the head that can be rolled back, and how the rest of the listing ends after that. */
  ghost predicate Headed(h: Hash, w: World, listing: seq<string>, k: nat, o: Outcome) {
    && Calm(w) && Independent(w, listing) && listing != [] && IsStarted(w, listing[0])
    && Rollback(h, w, listing[0]).Go? && EachAlone(h, Rollback(h, w, listing[0]).world, listing[1..], k, o)
  }

  /** What is known of the world after the head. */
  lemma AfterHead(h: Hash, w: World, listing: seq<string>, k: nat, o: Outcome)
    requires Headed(h, w, listing, k, o)
    ensures var r, v := w.receipts[listing[0]], Rollback(h, w, listing[0]).world;
      && Calm(v) && v.receipts == w.receipts[listing[0] := Closed(r)]
      && (forall p :: Outside(r.targets, p) ==> At(v.files, p) == At(w.files, p))
    ensures var v, rest := Rollback(h, w, listing[0]).world, listing[1..];
      && Listed(w, listing)
      && forall i :: 0 <= i < |rest| ==>
           && rest[i] == listing[i + 1] && rest[i] != listing[0] && rest[i] in w.receipts
           && v.receipts[rest[i]] == w.receipts[rest[i]] && IsStarted(v, rest[i]) == IsStarted(w, listing[i + 1])
  {
    RollbackTouches(h, w, listing[0]);
    hide Rollback;
    hide EachAlone;
    hide Outside;
    var rest := listing[1..];
    assert forall i :: 0 <= i < |rest| ==> rest[i] == listing[i + 1] && rest[i] != listing[0];
  }

  /** A later started receipt is rolled back after the head as it would be before it. */
  lemma LaterAlone(h: Hash, w: World, listing: seq<string>, k: nat, o: Outcome, i: nat)
    requires Headed(h, w, listing, k, o) && 1 <= i < |listing| && IsStarted(w, listing[i])
    ensures var v := Rollback(h, w, listing[0]).world;
      && Rollback(h, v, listing[i]).Go? == Rollback(h, w, listing[i]).Go?
      && SameAtAll(Rollback(h, v, listing[i]).world.files, Rollback(h, w, listing[i]).world.files,
                   w.receipts[listing[i]].targets)
  {
    AfterHead(h, w, listing, k, o);
    var r, s, v := w.receipts[listing[0]], w.receipts[listing[i]], Rollback(h, w, listing[0]).world;
    hide Rollback;
    hide EachAlone;
    assert listing[1..][i - 1] == listing[i];
    assert Strangers(r, s) && Apart(s.targets) && s.operation == listing[i];
    SameAtOutside(v.files, w.files, r, s);
    RollbackLocal(h, v, w, listing[i]);
  }

  lemma StartedHead(h: Hash, w: World, listing: seq<string>, k: nat, o: Outcome)
    requires Headed(h, w, listing, k, o)
    ensures EachAlone(h, w, listing, k + 1, o)
  {
    AfterHead(h, w, listing, k, o);
    StartedStops(h, w, listing, k, o);
    StartedAsAlone(h, w, listing, k, o);
    StartedKeeps(h, w, listing, k, o);
    StartedCloses(h, w, listing, k, o);
    hide Headed;
    hide StopsAt;
    hide AsAlone;
    hide OthersKept;
    hide ClosedBefore;
    hide Recorded;
  }

  lemma StartedStops(h: Hash, w: World, listing: seq<string>, k: nat, o: Outcome)
    requires Headed(h, w, listing, k, o)
    ensures StopsAt(h, w, listing, k + 1, o)
  {
    AfterHead(h, w, listing, k, o);
    forall i | 1 <= i < |listing| && IsStarted(w, listing[i])
      ensures Rollback(h, Rollback(h, w, listing[0]).world, listing[i]).Go? == Rollback(h, w, listing[i]).Go?
    {
      LaterAlone(h, w, listing, k, o, i);
    }
    hide Rollback;
    hide Independent;
    hide AsAlone;
    hide OthersKept;
    hide ClosedBefore;
    var rest := listing[1..];
    assert forall i :: 1 <= i < |listing| ==> listing[i] == rest[i - 1];
  }

  lemma StartedAsAlone(h: Hash, w: World, listing: seq<string>, k: nat, o: Outcome)
    requires Headed(h, w, listing, k, o) && Listed(w, listing)
    ensures AsAlone(h, w, listing, k + 1, o.world.files)
  {
    AfterHead(h, w, listing, k, o);
    var v, rest := Rollback(h, w, listing[0]).world, listing[1..];
    forall i | 0 <= i <= k + 1 && i < |listing| && IsStarted(w, listing[i])
      ensures SameAtAll(o.world.files, Rollback(h, w, listing[i]).world.files, w.receipts[listing[i]].targets)
    {
      if i == 0 {
        HeadIsKept(h, w, listing, k, o);
      } else {
        LaterAlone(h, w, listing, k, o, i);
        hide Rollback;
        hide Independent;
        hide OthersKept;
        hide ClosedBefore;
        hide SameAtAll;
        assert rest[i - 1] == listing[i];
        SameAtChain(o.world.files, Rollback(h, v, listing[i]).world.files, Rollback(h, w, listing[i]).world.files,
                    w.receipts[listing[i]].targets);
      }
    }
  }

  /** What the rest of the listing does is outside the slots of its head. */
  lemma HeadIsKept(h: Hash, w: World, listing: seq<string>, k: nat, o: Outcome)
    requires Headed(h, w, listing, k, o)
    ensures SameAtAll(o.world.files, Rollback(h, w, listing[0]).world.files, w.receipts[listing[0]].targets)
  {
    AfterHead(h, w, listing, k, o);
    var r, rest, v := w.receipts[listing[0]], listing[1..], Rollback(h, w, listing[0]).world;
    hide Rollback;
    hide AsAlone;
    hide StopsAt;
    hide ClosedBefore;
    forall i | 0 <= i < |r.targets| ensures SameAt(o.world.files, v.files, r.targets[i]) {
      var t := r.targets[i];
      forall p | p in Slots(t) ensures At(o.world.files, p) == At(v.files, p) {
        assert !Outside(r.targets, p);
        forall j | 0 <= j < |rest| && IsStarted(v, rest[j]) ensures Outside(v.receipts[rest[j]].targets, p) {
          assert Strangers(r, w.receipts[listing[j + 1]]);
        }
        assert Unlisted(v, rest, k, p);
      }
      assert t.destination in Slots(t) && t.temp in Slots(t) && t.backup in Slots(t);
    }
  }

  lemma StartedKeeps(h: Hash, w: World, listing: seq<string>, k: nat, o: Outcome)
    requires Headed(h, w, listing, k, o) && Listed(w, listing)
    ensures OthersKept(w, listing, k + 1, o.world.files)
  {
    AfterHead(h, w, listing, k, o);
    var rest, v := listing[1..], Rollback(h, w, listing[0]).world;
    hide Rollback;
    hide Independent;
    hide AsAlone;
    hide StopsAt;
    hide ClosedBefore;
    hide Outside;
    forall p | Unlisted(w, listing, k + 1, p) ensures At(o.world.files, p) == At(w.files, p) {
      assert Outside(w.receipts[listing[0]].targets, p);
      assert Unlisted(v, rest, k, p);
    }
  }

  lemma ClosesHeadToo(w: World, v: World, listing: seq<string>, k: nat, receipts: map<string, Receipt>)
    requires listing != [] && listing[0] !in listing[1..] && IsStarted(w, listing[0])
    requires v.receipts == w.receipts[listing[0] := Closed(w.receipts[listing[0]])]
    requires k < |listing| && ClosedBefore(v, listing[1..], k, receipts)
    ensures ClosedBefore(w, listing, k + 1, receipts)
  {
    hide Closed;
    var rest := listing[1..];
    assert listing[..k + 1] == [listing[0]] + rest[..k];
    forall op | op in rest[..k] ensures op in rest {
    }
    assert listing[0] !in rest[..k];
    forall op | op in w.receipts
      ensures receipts[op] ==
        if op in listing[..k + 1] && IsStarted(w, op) then Closed(w.receipts[op]) else w.receipts[op]
    {
      assert op != listing[0] ==> v.receipts[op] == w.receipts[op] && (op in listing[..k + 1] <==> op in rest[..k]);
    }
  }

  lemma StartedCloses(h: Hash, w: World, listing: seq<string>, k: nat, o: Outcome)
    requires Headed(h, w, listing, k, o) && k < |listing|
    ensures ClosedBefore(w, listing, k + 1, o.world.receipts)
  {
    AfterHead(h, w, listing, k, o);
    assert listing[0] !in listing[1..];
    hide Rollback;
    hide Independent;
    hide AsAlone;
    hide StopsAt;
    hide OthersKept;
    hide ClosedBefore;
    ClosesHeadToo(w, Rollback(h, w, listing[0]).world, listing, k, o.world.receipts);
  }

  /** Refused at the head. */
  lemma RefusedHead(h: Hash, w: World, listing: seq<string>)
    requires Calm(w) && Independent(w, listing) && listing != [] && IsStarted(w, listing[0])
    requires Rollback(h, w, listing[0]).Halt?
    ensures EachAlone(h, w, listing, 0, Rollback(h, w, listing[0]))
  {
    RollbackTouches(h, w, listing[0]);
    hide Rollback;
    assert listing[..0] == [];
  }

  lemma ReconcileUnfolds(h: Hash, w: World, listing: seq<string>)
    requires Independent(w, listing) && listing != []
    ensures var first := Rollback(h, w, listing[0]);
      ReconcileFrom(h, w, listing) ==
        if !IsStarted(w, listing[0]) then ReconcileFrom(h, w, listing[1..])
        else if first.Halt? then first
        else ReconcileFrom(h, first.world, listing[1..])
  {
    hide Rollback;
    hide ValidReceipt;
  }

  /**
   Fault-free reconcile over any valid receipts whose started ones share no path: up to the first one that is refused,
   each is rolled back exactly as it would be alone, and nothing else changes; it completes if none is refused.
   */
  lemma {:induction false} ReconcileEachAlone(h: Hash, w: World, listing: seq<string>) returns (k: nat)
    requires Calm(w) && Independent(w, listing)
    ensures EachAlone(h, w, listing, k, ReconcileFrom(h, w, listing))
    decreases |listing|
  {
    hide EachAlone;
    hide Rollback;
    hide ReconcileFrom;
    if listing == [] {
      EmptyListing(h, w);
      k := 0;
      return;
    }
    ReconcileUnfolds(h, w, listing);
    assert w.receipts[listing[0]].operation == listing[0];
    hide ValidReceipt;
    hide Strangers;
    if !IsStarted(w, listing[0]) {
      IndependentRest(w, w, listing);
      var m := ReconcileEachAlone(h, w, listing[1..]);
      SettledHead(h, w, listing, m, ReconcileFrom(h, w, listing[1..]));
      k := m + 1;
    } else {
      var first := Rollback(h, w, listing[0]);
      RollbackTouches(h, w, listing[0]);
      if first.Halt? {
        RefusedHead(h, w, listing);
        k := 0;
      } else {
        IndependentRest(w, first.world, listing);
        var m := ReconcileEachAlone(h, first.world, listing[1..]);
        StartedHead(h, w, listing, m, ReconcileFrom(h, first.world, listing[1..]));
        k := m + 1;
      }
    }
  }

  lemma EmptyListing(h: Hash, w: World)
    ensures EachAlone(h, w, [], 0, ReconcileFrom(h, w, []))
  {
  }
}
