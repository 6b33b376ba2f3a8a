/** The swap loop of an install: what each of its steps, and any stop between them, leaves behind. */
module SwapProofs {
  import opened Wrappers
  import opened InstallModel
  import opened RestoreProofs

  // ----- the swap loop

  /** The package is staged and the destination untouched. */
  ghost predicate Staged(files: Files, t: Target, tree: Tree, was: Option<Tree>) {
    && t.phase == Prepared && At(files, t.temp) == Some(tree)
    && At(files, t.destination) == was && t.backup !in files
  }

  /** What a crash of the swap loop can leave at one target, given the phase in the durable receipt. */
  ghost predicate InFlight(files: Files, t: Target, tree: Tree, was: Option<Tree>) {
    var saved := At(files, t.backup) == was;
    match t.phase
    case Prepared => At(files, t.temp) == Some(tree) &&
      ((At(files, t.destination) == was && t.backup !in files) || (t.destination !in files && saved))
    case BackedUp => saved &&
      ((t.destination !in files && At(files, t.temp) == Some(tree)) ||
       (At(files, t.destination) == Some(tree) && t.temp !in files))
    case Swapped => saved && At(files, t.destination) == Some(tree) && t.temp !in files
    case Restored => false
  }

  /** The phase in memory never lags the second rename. */
  ghost predicate InFlightLive(files: Files, t: Target, tree: Tree, was: Option<Tree>) {
    InFlight(files, t, tree, was) && (t.phase == BackedUp ==> t.destination !in files)
  }

  /** The same receipt up to the phases of its targets. */
  ghost predicate Rephased(r: Receipt, s: Receipt) {
    && r == s.(targets := r.targets) && |r.targets| == |s.targets|
    && forall i :: 0 <= i < |s.targets| ==> r.targets[i] == s.targets[i].(phase := r.targets[i].phase)
  }

  /** The first event that is not done is a crash. */
  predicate CrashOnly(script: seq<Event>) {
    script == [] || script[0].Dies? || (script[0].Done? && CrashOnly(script[1..]))
  }

  /** One failure, and nothing after it. */
  predicate FailOnce(script: seq<Event>) {
    script != [] && ((script[0].Fails? && |script| == 1) || (script[0].Done? && FailOnce(script[1..])))
  }

  /** How a step that needs no luck uses the script. */
  ghost predicate Faithful(w: World, o: Outcome) {
    && (o.Halt? ==> o.why == Io || o.why == Crash)
    && (w.script == [] ==> o.Go? && o.world.script == [])
    && (CrashOnly(w.script) ==> (o.Go? && CrashOnly(o.world.script)) || (o.Halt? && o.why == Crash))
    && (FailOnce(w.script) ==> (o.Go? && FailOnce(o.world.script)) || (o.Halt? && o.why == Io && o.world.script == []))
  }

  lemma RenameFaithful(w: World, source: Path, target: Path)
    requires source in w.files && target !in w.files
    ensures Faithful(w, Rename(w, source, target))
  {
  }

  lemma WriteReceiptStep(w: World, r: Receipt)
    ensures var o := WriteReceipt(w, r);
      && Faithful(w, o) && o.world.files == w.files
      && o.world.receipts == (if o.Go? then w.receipts[r.operation := r] else w.receipts)
  {
  }

  lemma FaithfulChain(w: World, o: Outcome, q: Outcome)
    requires o.Go? && Faithful(w, o) && Faithful(o.world, q)
    ensures Faithful(w, q)
  {
  }

  /** The durable receipt after swapping target i is the receipt before, or notes one of the two later phases. */
  ghost predicate Noted(d: Receipt, r: Receipt, i: nat)
    requires i < |r.targets|
  {
    d == r || d == SetPhase(r, i, BackedUp) || d == SetPhase(r, i, Swapped)
  }

  lemma SwapTargetStep(w: World, r: Receipt, i: nat, tree: Tree, was: Option<Tree>)
    requires i < |r.targets| && r.operation in w.receipts && w.receipts[r.operation] == r
    requires SelfApart(r.targets[i]) && Staged(w.files, r.targets[i], tree, was)
    ensures var (o, live) := SwapTarget(w, r, i);
      && r.operation in o.world.receipts
      && var d := o.world.receipts[r.operation];
      && Noted(live, r, i) && Noted(d, r, i) && Lags(d.targets[i].phase, live.targets[i].phase, false)
      && InFlightLive(o.world.files, live.targets[i], tree, was) && InFlight(o.world.files, d.targets[i], tree, was)
      && SameExcept(w.files, o.world.files, Slots(r.targets[i]))
      && o.world.receipts == w.receipts[r.operation := d]
      && (o.Go? ==> d == live == SetPhase(r, i, Swapped))
      && Faithful(w, o)
  {
    hide Rename;
    hide WriteReceipt;
    var t := r.targets[i];
    var saved := if t.destination in w.files then Rename(w, t.destination, t.backup) else Go(w);
    RenameStep(w, t.destination, t.backup);
    if t.destination in w.files {
      RenameFaithful(w, t.destination, t.backup);
    }
    if saved.Go? {
      var backedUp := SetPhase(r, i, BackedUp);
      var noted := WriteReceipt(saved.world, backedUp);
      WriteReceiptStep(saved.world, backedUp);
      FaithfulChain(w, saved, noted);
      if noted.Go? {
        RenameStep(noted.world, t.temp, t.destination);
        RenameFaithful(noted.world, t.temp, t.destination);
        var moved := Rename(noted.world, t.temp, t.destination);
        FaithfulChain(w, noted, moved);
        if moved.Go? {
          var swapped := SetPhase(backedUp, i, Swapped);
          assert swapped == SetPhase(r, i, Swapped);
          WriteReceiptStep(moved.world, swapped);
          FaithfulChain(w, moved, WriteReceipt(moved.world, swapped));
        }
      }
    }
  }

  /** Between two targets of the swap loop: those below i are swapped, the others staged. */
  ghost predicate SwapsDone(orig: Files, files: Files, targets: seq<Target>, i: nat, tree: Tree)
    requires i <= |targets|
  {
    && SameOutside(orig, files, targets)
    && (forall j :: 0 <= j < i ==>
          targets[j].phase == Swapped && InFlight(files, targets[j], tree, Was(orig, targets[j])))
    && (forall j :: i <= j < |targets| ==> Staged(files, targets[j], tree, Was(orig, targets[j])))
  }

  ghost predicate AllInFlight(orig: Files, files: Files, targets: seq<Target>, tree: Tree) {
    && SameOutside(orig, files, targets)
    && forall j :: 0 <= j < |targets| ==> InFlight(files, targets[j], tree, Was(orig, targets[j]))
  }

  ghost predicate AllInFlightLive(orig: Files, files: Files, targets: seq<Target>, tree: Tree) {
    forall j :: 0 <= j < |targets| ==> InFlightLive(files, targets[j], tree, Was(orig, targets[j]))
  }

  lemma FrameSwap(f: Files, g: Files, s: Target, t: Target, tree: Tree, was: Option<Tree>)
    requires SameExcept(f, g, Slots(s)) && Slots(s) !! Slots(t)
    ensures InFlight(f, t, tree, was) ==> InFlight(g, t, tree, was)
    ensures Staged(f, t, tree, was) ==> Staged(g, t, tree, was)
  {
    assert At(f, t.destination) == At(g, t.destination);
    assert At(f, t.temp) == At(g, t.temp);
    assert At(f, t.backup) == At(g, t.backup);
  }

  lemma SameOutsideRephased(orig: Files, files: Files, r: Receipt, s: Receipt)
    requires Rephased(r, s)
    ensures SameOutside(orig, files, r.targets) <==> SameOutside(orig, files, s.targets)
    ensures Apart(s.targets) ==> Apart(r.targets)
  {
    assert forall i :: 0 <= i < |r.targets| ==> Slots(r.targets[i]) == Slots(s.targets[i]);
    assert forall p :: Outside(r.targets, p) <==> Outside(s.targets, p);
  }

  ghost predicate OnlyAt(d: Receipt, r: Receipt, i: nat) {
    Rephased(d, r) && forall j :: 0 <= j < |r.targets| && j != i ==> d.targets[j] == r.targets[j]
  }

  lemma NotedIsRephased(d: Receipt, r: Receipt, i: nat)
    requires i < |r.targets| && Noted(d, r, i)
    ensures OnlyAt(d, r, i)
  {
  }

  lemma RephasedTwice(q: Receipt, r: Receipt, s: Receipt)
    requires Rephased(q, r) && Rephased(r, s)
    ensures Rephased(q, s)
  {
  }

  /** How the swap loop can stop: `live` is the receipt in memory, the durable one is in the world. */
  ghost predicate SwapStop(w: World, r: Receipt, o: Outcome, live: Receipt, tree: Tree, orig: Files) {
    && r.operation in o.world.receipts
    && var d := o.world.receipts[r.operation];
    && Rephased(live, r) && Rephased(d, r) && LaggingTargets(d.targets, live.targets, false)
    && AllInFlightLive(orig, o.world.files, live.targets, tree)
    && AllInFlight(orig, o.world.files, d.targets, tree)
    && o.world.receipts == w.receipts[r.operation := d]
    && (o.Go? ==> d == live)
    && Faithful(w, o)
  }

  /** Swapping target i keeps the picture at every other target. */
  lemma SwapTargetKeepsOthers(w: World, r: Receipt, i: nat, tree: Tree, orig: Files)
    requires Apart(r.targets) && i < |r.targets| && r.operation in w.receipts && w.receipts[r.operation] == r
    requires SwapsDone(orig, w.files, r.targets, i, tree)
    ensures var (o, live) := SwapTarget(w, r, i);
      && SwapStop(w, r, o, live, tree, orig)
      && (o.Go? ==> |live.targets| == |r.targets| && SwapsDone(orig, o.world.files, live.targets, i + 1, tree))
  {
    SwapTargetStep(w, r, i, tree, Was(orig, r.targets[i]));
    hide SwapTarget;
    hide Faithful;
    var (o, live) := SwapTarget(w, r, i);
    OthersFramed(w.files, o.world.files, r.targets, i, tree, orig);
    NotedIsRephased(live, r, i);
    NotedIsRephased(o.world.receipts[r.operation], r, i);
    SwapStopFromParts(w, r, i, o, live, tree, orig);
  }

  lemma SwapStopFromParts(w: World, r: Receipt, i: nat, o: Outcome, live: Receipt, tree: Tree, orig: Files)
    requires i < |r.targets| && r.operation in o.world.receipts
    requires var d := o.world.receipts[r.operation]; var was := Was(orig, r.targets[i]);
      && OnlyAt(live, r, i) && OnlyAt(d, r, i) && Lags(d.targets[i].phase, live.targets[i].phase, false)
      && InFlightLive(o.world.files, live.targets[i], tree, was) && InFlight(o.world.files, d.targets[i], tree, was)
      && o.world.receipts == w.receipts[r.operation := d]
      && (o.Go? ==> d == live && live.targets[i].phase == Swapped)
    requires Faithful(w, o)
    requires SameOutside(orig, o.world.files, r.targets) && OthersDone(orig, o.world.files, r.targets, i, tree)
    ensures SwapStop(w, r, o, live, tree, orig)
    ensures o.Go? ==> |live.targets| == |r.targets| && SwapsDone(orig, o.world.files, live.targets, i + 1, tree)
  {
    hide Faithful;
    hide InFlight;
    hide Staged;
    var d := o.world.receipts[r.operation];
    SameOutsideRephased(orig, o.world.files, d, r);
    SameOutsideRephased(orig, o.world.files, live, r);
    LaggingAtOne(d, live, r, i);
    OthersInFlight(orig, o.world.files, r, d, i, tree);
    OthersInFlight(orig, o.world.files, r, live, i, tree);
    if o.Go? { NextIsDone(orig, o.world.files, r, live, i, tree); }
    hide SameOutside;
    hide LaggingTargets;
    hide OthersDone;
    hide SwapsDone;
    hide InFlightLive;
  }

  lemma NextIsDone(orig: Files, files: Files, r: Receipt, live: Receipt, i: nat, tree: Tree)
    requires i < |r.targets| && OnlyAt(live, r, i) && live.targets[i].phase == Swapped
    requires InFlight(files, live.targets[i], tree, Was(orig, live.targets[i]))
    requires SameOutside(orig, files, live.targets) && OthersDone(orig, files, r.targets, i, tree)
    ensures |live.targets| == |r.targets| && SwapsDone(orig, files, live.targets, i + 1, tree)
  {
    hide InFlight;
    hide Staged;
    hide SameOutside;
  }

  /** Apart from target i: swapped below, staged above. */
  ghost predicate OthersDone(orig: Files, files: Files, targets: seq<Target>, i: nat, tree: Tree)
    requires i < |targets|
  {
    && (forall j :: 0 <= j < i ==>
          targets[j].phase == Swapped && InFlight(files, targets[j], tree, Was(orig, targets[j])))
    && (forall j :: i < j < |targets| ==> Staged(files, targets[j], tree, Was(orig, targets[j])))
  }

  lemma OthersFramed(f: Files, g: Files, targets: seq<Target>, i: nat, tree: Tree, orig: Files)
    requires Apart(targets) && i < |targets| && SameExcept(f, g, Slots(targets[i]))
    requires SwapsDone(orig, f, targets, i, tree)
    ensures SameOutside(orig, g, targets) && OthersDone(orig, g, targets, i, tree)
  {
    forall j | 0 <= j < |targets| && j != i
      ensures j < i ==> InFlight(g, targets[j], tree, Was(orig, targets[j]))
      ensures i < j ==> Staged(g, targets[j], tree, Was(orig, targets[j]))
    {
      assert Slots(targets[i]) !! Slots(targets[j]);
      FrameSwap(f, g, targets[i], targets[j], tree, Was(orig, targets[j]));
    }
    forall p | Outside(targets, p) ensures At(orig, p) == At(g, p) {
      assert p !in Slots(targets[i]);
    }
  }

  lemma LaggingAtOne(d: Receipt, live: Receipt, r: Receipt, i: nat)
    requires i < |r.targets| && OnlyAt(live, r, i) && OnlyAt(d, r, i)
    requires Lags(d.targets[i].phase, live.targets[i].phase, false)
    ensures LaggingTargets(d.targets, live.targets, false)
  {
  }

  lemma OthersInFlight(orig: Files, files: Files, r: Receipt, s: Receipt, i: nat, tree: Tree)
    requires i < |r.targets| && OnlyAt(s, r, i)
    requires InFlight(files, s.targets[i], tree, Was(orig, s.targets[i]))
    requires OthersDone(orig, files, r.targets, i, tree)
    ensures forall j :: 0 <= j < |r.targets| ==> InFlight(files, s.targets[j], tree, Was(orig, s.targets[j]))
    ensures forall j :: 0 <= j < |r.targets| && j != i ==>
      InFlightLive(files, s.targets[j], tree, Was(orig, s.targets[j]))
  {
    forall j | 0 <= j < |r.targets| && j != i
      ensures InFlightLive(files, s.targets[j], tree, Was(orig, s.targets[j]))
    {
    }
  }

  lemma SwapStopAtEnd(w: World, r: Receipt, tree: Tree, orig: Files)
    requires r.operation in w.receipts && w.receipts[r.operation] == r
    requires SwapsDone(orig, w.files, r.targets, |r.targets|, tree)
    ensures SwapStop(w, r, Go(w), r, tree, orig)
  {
  }

  lemma SwapStopChain(w: World, r: Receipt, o: Outcome, live: Receipt, q: Outcome, last: Receipt, tree: Tree,
      orig: Files)
    requires o.Go? && SwapStop(w, r, o, live, tree, orig) && SwapStop(o.world, live, q, last, tree, orig)
    ensures SwapStop(w, r, q, last, tree, orig)
  {
    hide LaggingTargets;
    hide AllInFlight;
    hide AllInFlightLive;
    FaithfulChain(w, o, q);
    hide Faithful;
    RephasedTwice(last, live, r);
    RephasedTwice(q.world.receipts[r.operation], live, r);
  }

  /**
   Any stop of the swap loop leaves every target in flight for the durable receipt, which lags by one write at most.
   */
  lemma {:induction false} SwapFromKeeps(w: World, r: Receipt, i: nat, tree: Tree, orig: Files)
    requires Apart(r.targets) && i <= |r.targets| && r.operation in w.receipts && w.receipts[r.operation] == r
    requires SwapsDone(orig, w.files, r.targets, i, tree)
    ensures var (o, live) := SwapFrom(w, r, i);
      && SwapStop(w, r, o, live, tree, orig)
      && (o.Go? ==> |live.targets| == |r.targets| && SwapsDone(orig, o.world.files, live.targets, |r.targets|, tree))
    decreases |r.targets| - i
  {
    hide SwapTarget;
    if i == |r.targets| {
      SwapStopAtEnd(w, r, tree, orig);
      hide SwapStop;
    } else {
      var (o, live) := SwapTarget(w, r, i);
      SwapTargetKeepsOthers(w, r, i, tree, orig);
      hide SwapsDone;
      hide Faithful;
      if o.Go? {
        SameOutsideRephased(orig, o.world.files, live, r);
        SwapFromKeeps(o.world, live, i + 1, tree, orig);
        var (q, last) := SwapFrom(o.world, live, i + 1);
        SwapStopChain(w, r, o, live, q, last, tree, orig);
      }
      hide SwapStop;
    }
  }
}
