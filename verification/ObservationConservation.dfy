/**
 * Conservation across windows: the out-of-band changes handed to a window lead exactly from the
 * snapshot the previous window ended with to the snapshot this one starts from.
 */
module ObservationConservation {
  import opened Options
  import opened Paths
  import opened Effects
  import opened Sessions
  import opened Observation

  /** The snapshot a publication replaces agrees with the one it was computed from wherever it changes nothing. */
  ghost predicate Bridges(replaced: Files, previous: Files, files: Files) {
    forall p :: SameAt(previous, files, p) ==> SameAt(replaced, previous, p)
  }

  /**
   * What a publication would have to check: `Bridges`. It holds whenever the publication replaces the
   * snapshot it was computed from, and may fail when another publication came between.
   */
  ghost predicate Bridging(w: World, step: Step)
    requires Enabled(w, step)
  {
    match step
    case PublishPass(_) => w.s.snapshot.Some? ==> Bridges(w.s.snapshot.value, w.flow.previous, w.flow.capture.phase.files)
    case FinishReconciliation(full, _, _, _, _) =>
      w.s.snapshot.Some? && Published(w) ==> Bridges(w.s.snapshot.value, w.reconciliation.previous, full)
    case _ => true
  }

  /** A finished reconciliation publishes unless a window or an event came between. */
  predicate Published(w: World) {
    w.reconciliation.FullWalk? && w.s.activeCursor == None && w.s.cursor == w.reconciliation.through
  }

  ghost predicate BridgingRun(w: World, steps: seq<Step>)
    requires Legal(w, steps)
    decreases |steps|
  {
    steps == [] || (Bridging(w, steps[0]) && BridgingRun(Next(w, steps[0]), steps[1..]))
  }

  predicate BetweenWindows(flow: Flow) {
    flow.Idle? || flow.BetweenPasses? || flow.Draining?
  }

  /** A flow that works from snapshot `previous` still does, as long as the epoch is its own. */
  predicate StartedFrom(w: World, epoch: nat, previous: Files) {
    epoch <= w.epoch && (epoch == w.epoch ==> w.s.snapshot == Some(previous))
  }

  ghost predicate Conserved(w: World) {
    && (w.s.snapshot.Some? ==> SameFiles(ApplyAll(w.base, w.s.outOfBand), w.s.snapshot.value))
    && (w.s.snapshot == None ==> w.s.outOfBand == [] && w.reconciliation == NoReconciliation && (w.flow.Idle? || w.flow.FirstWalk?))
    && (w.flow.FirstWalk? ==> w.s.snapshot == None && w.last == None)
    && (w.s.activeCursor.Some? <==> w.flow.Open? || w.flow.Ending?)
    && (w.s.activeCursor.Some? ==> w.s.outOfBand == [])
    && (w.flow.Draining? ==> StartedFrom(w, w.flow.capture.epoch, w.flow.previous))
    && (w.reconciliation.CatchingUp? ==> StartedFrom(w, w.reconciliation.capture.epoch, w.reconciliation.previous))
    && (w.reconciliation.FullWalk? ==> StartedFrom(w, w.reconciliation.epoch, w.reconciliation.previous))
    && (BetweenWindows(w.flow) && w.last.Some? ==> w.base == w.last.value.files)
    && (w.last.Some? ==> w.s.snapshot.Some?)
  }

  lemma {:induction false} ApplyAllConcat(files: Files, first: seq<Change>, second: seq<Change>)
    ensures ApplyAll(files, first + second) == ApplyAll(ApplyAll(files, first), second)
    decreases |first|
  {
    if first == [] {
      assert first + second == second;
    } else {
      ApplyAllConcat(Apply(files, first[0]), first[1..], second);
      assert (first + second)[1..] == first[1..] + second;
    }
  }

  /** Applying a list does not see Git blob names or the out-of-band flag. */
  lemma {:induction false} ApplyAllCongruent(left: Files, right: Files, cs: seq<Change>)
    requires SameFiles(left, right)
    ensures SameFiles(ApplyAll(left, OutOfBand(cs)), ApplyAll(right, cs))
    decreases |cs|
  {
    if cs != [] {
      assert OutOfBand(cs)[1..] == OutOfBand(cs[1..]);
      ApplyAllCongruent(Apply(left, OutOfBand(cs)[0]), Apply(right, cs[0]), cs[1..]);
    }
  }

  /**
   * Exactly when a publication over any snapshot keeps the bridge: the snapshot it replaces must agree
   * with the one it was computed from wherever it changes nothing. A publication over its own snapshot
   * always qualifies; one that overtakes another publication need not.
   */
  lemma PublicationBridgesIff(base: Files, soFar: seq<Change>, replaced: Files, previous: Files, files: Files, changes: seq<Change>)
    requires SameFiles(ApplyAll(base, soFar), replaced) && IsDiff(previous, files, changes)
    ensures SameFiles(ApplyAll(base, soFar + OutOfBand(changes)), files)
            <==> Bridges(replaced, previous, files)
  {
    ApplyAllConcat(base, soFar, OutOfBand(changes));
    ApplyAllCongruent(ApplyAll(base, soFar), replaced, changes);
    PatchAppliesIff(previous, files, changes, replaced);
  }

  /** A flow still in the epoch it started from replaces its own snapshot, and that always bridges. */
  lemma OwnEpochBridges(w: World, step: Step)
    requires Conserved(w) && Enabled(w, step)
    requires step.PublishPass? ==> w.flow.capture.epoch == w.epoch
    requires step.FinishReconciliation? ==> w.reconciliation.epoch == w.epoch
    ensures Bridging(w, step)
  {
  }

  lemma PassConservesIff(w: World, changes: seq<Change>)
    requires Conserved(w) && Enabled(w, PublishPass(changes))
    ensures Conserved(Next(w, PublishPass(changes))) <==> Bridging(w, PublishPass(changes))
  {
    hide ApplyAll, SameFiles, IsDiff, DropProcessed, Lasting, Unique, Bridges;
    PublicationBridgesIff(w.base, w.s.outOfBand, w.s.snapshot.value, w.flow.previous, w.flow.capture.phase.files, changes);
  }

  lemma ReconciliationConservesIff(w: World, step: Step)
    requires step.FinishReconciliation? && Conserved(w) && Enabled(w, step)
    ensures Conserved(Next(w, step)) <==> Bridging(w, step)
  {
    hide ApplyAll, SameFiles, IsDiff, WalkFinds, DropProcessed, Lasting, Bridges;
    PublicationBridgesIff(w.base, w.s.outOfBand, w.s.snapshot.value, w.reconciliation.previous, step.full, step.difference);
  }

  lemma EnvironmentConserves(w: World, step: Step)
    requires step.Deliver? || step.Lose? || step.WatcherFails? || step.BeginOverlapping?
    requires Conserved(w) && Enabled(w, step)
    ensures Conserved(Next(w, step))
  {
    hide ApplyAll, SameFiles;
  }

  lemma WriteConserves(w: World, step: Step)
    requires step.Write? && Conserved(w) && Enabled(w, step)
    ensures Conserved(Next(w, step))
  {
    hide ApplyAll, SameFiles, TreeShaped, Touched;
  }

  lemma AdvanceConserves(w: World, step: Step)
    requires step.Advance? && Conserved(w) && Enabled(w, step)
    ensures Conserved(Next(w, step))
  {
    var c := CaptureOf(w, step.who).value;
    var next := CaptureNext(w.s, c, step.capture);
    hide CaptureNext, ApplyAll, SameFiles, CaptureEnabled;
    assert next.epoch == c.epoch;
  }

  lemma WindowStepsConserve(w: World, step: Step)
    requires step.Begin? || step.StartPass? || step.FinishBegin? || step.StartEnd?
    requires Conserved(w) && Enabled(w, step)
    ensures Conserved(Next(w, step))
  {
  }

  lemma PublishedSnapshotsConserve(w: World, step: Step)
    requires step.FinishFirst? || step.PublishEnd?
    requires Conserved(w) && Enabled(w, step)
    ensures Conserved(Next(w, step))
  {
    hide WalkFinds, Unique, Lasting, DropProcessed, OnlyOrigin;
  }

  lemma ReconciliationStepsConserve(w: World, step: Step)
    requires step.StartReconciliation? || step.FinishCatchingUp? || step.AbortReconciliation?
    requires Conserved(w) && Enabled(w, step)
    ensures Conserved(Next(w, step))
  {
    hide ApplyAll, SameFiles;
  }

  /** A step keeps the out-of-band list a bridge if and only if it meets its guard. */
  lemma StepConservesIff(w: World, step: Step)
    requires Conserved(w) && Enabled(w, step)
    ensures Conserved(Next(w, step)) <==> Bridging(w, step)
  {
    hide Conserved, Next, Enabled, Bridges;
    if step.PublishPass? {
      PassConservesIff(w, step.changes);
    } else if step.FinishReconciliation? {
      ReconciliationConservesIff(w, step);
    } else if step.FinishFirst? || step.PublishEnd? {
      PublishedSnapshotsConserve(w, step);
    } else if step.Begin? || step.StartPass? || step.FinishBegin? || step.StartEnd? {
      WindowStepsConserve(w, step);
    } else if step.StartReconciliation? || step.FinishCatchingUp? || step.AbortReconciliation? {
      ReconciliationStepsConserve(w, step);
    } else if step.Write? {
      WriteConserves(w, step);
    } else if step.Advance? {
      AdvanceConserves(w, step);
    } else {
      EnvironmentConserves(w, step);
    }
  }

  ghost predicate ConservedThroughout(w: World, steps: seq<Step>)
    requires Legal(w, steps)
    decreases |steps|
  {
    Conserved(w) && (steps == [] || ConservedThroughout(Next(w, steps[0]), steps[1..]))
  }

  /** The list stays a bridge throughout a run if and only if every publication of the run bridges. */
  lemma {:induction false} RunConservesIff(w: World, steps: seq<Step>)
    requires Conserved(w) && Legal(w, steps)
    ensures ConservedThroughout(w, steps) <==> BridgingRun(w, steps)
    ensures BridgingRun(w, steps) ==> Conserved(Execute(w, steps))
    decreases |steps|
  {
    if steps != [] {
      hide Conserved, Bridging;
      StepConservesIff(w, steps[0]);
      if Bridging(w, steps[0]) { RunConservesIff(Next(w, steps[0]), steps[1..]); }
    }
  }

  /**
   * When a window opens, applying the out-of-band changes it is handed to the files the previous
   * window ended with gives the files it starts from, through any number of interleaved drain
   * passes and reconciliations that bridge.
   */
  lemma OutOfBandBridgesWindows(start: World, steps: seq<Step>, w: World)
    requires Initial(start) && Legal(start, steps) && BridgingRun(start, steps) && w == Execute(start, steps)
    requires Enabled(w, FinishBegin) && w.last.Some?
    ensures var window := Next(w, FinishBegin).flow.window;
            SameFiles(ApplyAll(w.last.value.files, window.outOfBand), window.before)
    ensures Next(w, FinishBegin).s.outOfBand == []
  {
    RunConservesIff(start, steps);
  }
}
