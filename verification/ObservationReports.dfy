/**
 * What windows report: the gaps a window starts and ends with, gap by gap, and the fate of a gap from
 * the moment it is pending until a window has reported it.
 */
module ObservationReports {
  import opened Options
  import opened Effects
  import opened Sessions
  import opened Observation

  const MISMATCH_GAP := Gap(ReconciliationMismatch, Filesystem)

  // ---- One step ----

  /**
   * A window starts from where the session has got to and with exactly these gaps: the lasting ones,
   * every pending one, the mark, and the busy gap if events are unprocessed. What it took is taken.
   */
  lemma OpenedWindowIs(w: World)
    requires Enabled(w, FinishBegin)
    ensures var v := Next(w, FinishBegin);
            && v.flow.Open? && v.flow.window.cursor == w.s.processedCursor && Some(v.flow.window.before) == w.s.snapshot
            && v.flow.window.outOfBand == w.s.outOfBand
            && (forall g :: g in v.flow.window.gaps <==>
                  || g in w.s.persistentGaps || g in w.s.pendingGaps || w.s.degraded == Some(g)
                  || (g == BUSY_GAP && w.s.cursor > w.s.processedCursor))
            && v.s.pendingGaps == [] && v.s.outOfBand == [] && v.s.activeCursor == Some(w.s.processedCursor)
            && v.s.persistentGaps == w.s.persistentGaps && v.s.degraded == w.s.degraded
  {
  }

  /**
   * A window ends with the files of its capture and exactly these gaps: those it started with, those of
   * the capture, the mark, and the busy gap if events came after it was cut off; and it is complete
   * exactly when none of them is more than the origin gap.
   */
  lemma ClosedWindowIs(w: World)
    requires Enabled(w, PublishEnd)
    ensures var v, c := Next(w, PublishEnd), w.flow.capture;
            && v.last.Some? && v.last.value.files == c.phase.files
            && (forall g :: g in v.last.value.gaps <==>
                  || g in w.flow.window.gaps || g in c.phase.gaps || w.s.degraded == Some(g)
                  || (g == BUSY_GAP && w.s.cursor > c.through))
            && (v.last.value.complete <==>
                  && (forall g :: g in w.flow.window.gaps ==> g == ORIGIN_GAP) && (forall g :: g in c.phase.gaps ==> g == ORIGIN_GAP)
                  && (w.s.degraded == None || w.s.degraded == Some(ORIGIN_GAP)) && w.s.cursor <= c.through)
            && v.s.activeCursor == None && v.flow == Idle
  {
    ResultIs(w.s, w.flow.window, w.flow.capture.phase.files, w.flow.capture.phase.gaps, w.flow.capture.through);
    hide Publish, ResultOf;
  }

  lemma ResultIs(s: Session, window: Window, files: Files, gaps: seq<Gap>, through: nat)
    ensures var r := ResultOf(s, window, files, gaps, through);
            && r.files == files
            && (forall g :: g in r.gaps <==>
                  g in window.gaps || g in gaps || s.degraded == Some(g) || (g == BUSY_GAP && s.cursor > through))
            && (r.complete <==>
                  && (forall g :: g in window.gaps ==> g == ORIGIN_GAP) && (forall g :: g in gaps ==> g == ORIGIN_GAP)
                  && (s.degraded == None || s.degraded == Some(ORIGIN_GAP)) && s.cursor <= through)
  {
    var r := ResultOf(s, window, files, gaps, through);
    forall g ensures g in r.gaps <==> g in window.gaps || g in gaps || s.degraded == Some(g) || (g == BUSY_GAP && s.cursor > through) { }
    hide Unique;
    if s.degraded.Some? { assert s.degraded.value in r.gaps; }
    if s.cursor > through { assert BUSY_GAP in r.gaps; }
  }

  /** A reconciliation that has to give up: a window is open, or events came in. */
  predicate GivesUp(w: World, step: Step) {
    || (step.StartReconciliation? && w.s.activeCursor.Some?)
    || (step.FinishReconciliation? && w.reconciliation.FullWalk?
        && (w.s.activeCursor.Some? || w.s.cursor != w.reconciliation.through))
  }

  /** What a step adds to the pending gaps. */
  predicate Owes(w: World, step: Step, g: Gap) {
    || (GivesUp(w, step) && g == MOVED_GAP)
    || (step.AbortReconciliation? && g == step.reason)
    || (step.FinishReconciliation? && !GivesUp(w, step) && step.replaced && g == ROOT_GAP)
    || (step.FinishReconciliation? && !GivesUp(w, step) && !step.same && g == MISMATCH_GAP)
  }

  /** A gap is pending after a step exactly if the step adds it, or it was pending and the step opens no window. */
  lemma PendingGapsAre(w: World, step: Step, g: Gap)
    requires Enabled(w, step)
    ensures g in Next(w, step).s.pendingGaps <==> Owes(w, step, g) || (g in w.s.pendingGaps && !step.FinishBegin?)
  {
    if step.FinishReconciliation? {
      ReconciledPending(w, step, g);
    } else if step.StartReconciliation? || step.AbortReconciliation? {
      AbandonedPending(w, step, g);
    } else {
      hide IsDiff, WalkFinds, Touched, TreeShaped, DropProcessed, Unique, Lasting, Reconcile, AbandonReconciliation;
    }
  }

  lemma AbandonedPending(w: World, step: Step, g: Gap)
    requires Enabled(w, step) && (step.StartReconciliation? || step.AbortReconciliation?)
    ensures g in Next(w, step).s.pendingGaps <==> Owes(w, step, g) || g in w.s.pendingGaps
  {
  }

  lemma ReconciledPending(w: World, step: Step, g: Gap)
    requires Enabled(w, step) && step.FinishReconciliation?
    ensures g in Next(w, step).s.pendingGaps <==> Owes(w, step, g) || g in w.s.pendingGaps
  {
    hide IsDiff, WalkFinds, DropProcessed, Lasting, OnlyToolOrGit, OutOfBand, SameFiles;
  }

  // ---- Runs ----

  predicate OpensNone(steps: seq<Step>) {
    forall i :: 0 <= i < |steps| ==> !steps[i].FinishBegin?
  }

  predicate ClosesNone(steps: seq<Step>) {
    forall i :: 0 <= i < |steps| ==> !steps[i].PublishEnd?
  }

  /** Whatever happens, a pending gap stays pending until a window opens. */
  lemma {:induction false} PendingUntilOpened(w: World, steps: seq<Step>, g: Gap)
    requires Legal(w, steps) && OpensNone(steps) && g in w.s.pendingGaps
    ensures g in Execute(w, steps).s.pendingGaps
    decreases |steps|
  {
    if steps != [] {
      PendingGapsAre(w, steps[0], g);
      hide Next, Enabled;
      PendingUntilOpened(Next(w, steps[0]), steps[1..], g);
    }
  }

  predicate Carries(flow: Flow, g: Gap) {
    (flow.Open? || flow.Ending?) && g in flow.window.gaps
  }

  lemma CarriedOn(w: World, step: Step, g: Gap)
    requires Enabled(w, step) && Carries(w.flow, g) && !step.PublishEnd?
    ensures Carries(Next(w, step).flow, g)
  {
    hide IsDiff, WalkFinds, Touched, TreeShaped, DropProcessed, Unique, Lasting;
  }

  /** Whatever happens, an open window keeps the gaps it started with until it ends. */
  lemma {:induction false} CarriedUntilClosed(w: World, steps: seq<Step>, g: Gap)
    requires Legal(w, steps) && ClosesNone(steps) && Carries(w.flow, g)
    ensures Carries(Execute(w, steps).flow, g)
    decreases |steps|
  {
    if steps != [] {
      CarriedOn(w, steps[0], g);
      hide Next, Enabled, Carries;
      CarriedUntilClosed(Next(w, steps[0]), steps[1..], g);
    }
  }

  lemma {:induction false} RunsCompose(w: World, front: seq<Step>, back: seq<Step>)
    requires Legal(w, front + back)
    ensures Legal(w, front) && Legal(Execute(w, front), back) && Execute(w, front + back) == Execute(Execute(w, front), back)
    decreases |front|
  {
    if front == [] {
      assert front + back == back;
    } else {
      assert (front + back)[0] == front[0] && (front + back)[1..] == front[1..] + back;
      hide Next, Enabled;
      RunsCompose(Next(w, front[0]), front[1..], back);
    }
  }

  /** A gap that is pending at any time is reported by the next window that opens, whenever that one ends. */
  lemma PendingGapIsReported(w: World, waiting: seq<Step>, during: seq<Step>, g: Gap)
    requires g in w.s.pendingGaps && OpensNone(waiting) && ClosesNone(during)
    requires Legal(w, waiting + [FinishBegin] + during + [PublishEnd])
    ensures var v := Execute(w, waiting + [FinishBegin] + during + [PublishEnd]);
            v.last.Some? && g in v.last.value.gaps && (g != ORIGIN_GAP ==> !v.last.value.complete)
  {
    hide Next, Enabled;
    RunsCompose(w, waiting + [FinishBegin] + during, [PublishEnd]);
    RunsCompose(w, waiting + [FinishBegin], during);
    RunsCompose(w, waiting, [FinishBegin]);
    var ready := Execute(w, waiting);
    PendingUntilOpened(w, waiting, g);
    assert Legal(ready, [FinishBegin]) && Execute(ready, [FinishBegin]) == Next(ready, FinishBegin) by { OneStep(ready, FinishBegin); }
    OpenedWindowIs(ready);
    var start := Next(ready, FinishBegin);
    CarriedUntilClosed(start, during, g);
    var ending := Execute(start, during);
    OneStep(ending, PublishEnd);
    ClosedWindowIs(ending);
  }

  lemma OneStep(w: World, step: Step)
    requires Legal(w, [step])
    ensures Enabled(w, step) && Execute(w, [step]) == Next(w, step)
  {
    hide Enabled, Next;
    assert [step][1..] == [];
  }

  /** A reconciliation whose full capture disagrees with the incremental one, or that gives up or fails, for whatever reason. */
  predicate Unsettled(w: World, step: Step) {
    || GivesUp(w, step) || step.AbortReconciliation?
    || (step.FinishReconciliation? && (!step.same || step.replaced))
  }

  /** After it, the next window that opens does not end complete. */
  lemma UnsettledReconciliationDegrades(w: World, step: Step, waiting: seq<Step>, during: seq<Step>)
    requires Enabled(w, step) && Unsettled(w, step)
    requires OpensNone(waiting) && ClosesNone(during)
    requires Legal(Next(w, step), waiting + [FinishBegin] + during + [PublishEnd])
    ensures var v := Execute(Next(w, step), waiting + [FinishBegin] + during + [PublishEnd]);
            v.last.Some? && !v.last.value.complete
  {
    var g := if GivesUp(w, step) then MOVED_GAP else if step.AbortReconciliation? then step.reason
             else if step.replaced then ROOT_GAP else MISMATCH_GAP;
    assert Owes(w, step, g) && g != ORIGIN_GAP;
    PendingGapsAre(w, step, g);
    PendingGapIsReported(Next(w, step), waiting, during, g);
  }

  // ---- Lasting gaps ----

  /** What is lasting after a step: the gaps of a full capture alone, or those of a published capture besides the old ones. */
  lemma LastingGapsAre(w: World, step: Step, g: Gap)
    requires Enabled(w, step)
    ensures g in Next(w, step).s.persistentGaps <==>
              if step.FinishFirst? then g in step.firstGaps && g.scope != ToolEffects
              else if step.FinishReconciliation? && !GivesUp(w, step) then g in step.fullGaps && g.scope != ToolEffects
              else g in w.s.persistentGaps
                   || ((step.PublishPass? || step.PublishEnd?) && g in w.flow.capture.phase.gaps && g.scope != ToolEffects)
  {
    if step.FinishFirst? || step.FinishReconciliation? || step.PublishPass? || step.PublishEnd? {
      PublishedLasting(w, step, g);
    } else {
      hide IsDiff, WalkFinds, Touched, TreeShaped, DropProcessed, Unique, Lasting;
    }
  }

  lemma PublishedLasting(w: World, step: Step, g: Gap)
    requires Enabled(w, step) && (step.FinishFirst? || step.FinishReconciliation? || step.PublishPass? || step.PublishEnd?)
    ensures g in Next(w, step).s.persistentGaps <==>
              if step.FinishFirst? then g in step.firstGaps && g.scope != ToolEffects
              else if step.FinishReconciliation? && GivesUp(w, step) then g in w.s.persistentGaps
              else if step.FinishReconciliation? then g in step.fullGaps && g.scope != ToolEffects
              else g in w.s.persistentGaps || (g in w.flow.capture.phase.gaps && g.scope != ToolEffects)
  {
    hide IsDiff, WalkFinds, DropProcessed, OnlyToolOrGit, OutOfBand, SameFiles, ResultOf;
  }

  // ---- When a reconciliation is due ----

  /** A window that ends schedules a reconciliation exactly if it is a multiple of the period. */
  lemma EndSchedulesIff(w: World)
    requires Enabled(w, PublishEnd) && w.every > 0
    ensures var v := Next(w, PublishEnd);
            && v.s.completedWindows == w.s.completedWindows + 1
            && (v.s.reconciliationScheduled <==> w.s.reconciliationScheduled || v.s.completedWindows % w.every == 0)
  {
    hide Unique, Lasting, DropProcessed, ResultOf;
  }

  /** Steps that leave the count of ended windows alone. */
  predicate LeavesCount(w: World, step: Step) {
    !step.PublishEnd? && !GivesUp(w, step) && !step.AbortReconciliation? && !(step.Advance? && MarksReplaced(step.capture))
  }

  lemma CountIsLeft(w: World, step: Step)
    requires Enabled(w, step) && LeavesCount(w, step)
    ensures Next(w, step).s.completedWindows == w.s.completedWindows && Next(w, step).every == w.every
  {
    if step.Advance? {
      AdvanceLeavesCount(w, step);
    } else if step.StartReconciliation? || step.FinishReconciliation? {
      ReconciliationLeavesCount(w, step);
    } else {
      hide IsDiff, WalkFinds, Touched, TreeShaped, DropProcessed, Unique, Lasting, OutOfBand,
        CaptureNext, SetCapture, CaptureOf, Reconcile, AbandonReconciliation, ResultOf, MarksReplaced;
    }
  }

  lemma AdvanceLeavesCount(w: World, step: Step)
    requires Enabled(w, step) && step.Advance? && !MarksReplaced(step.capture)
    ensures Next(w, step).s.completedWindows == w.s.completedWindows && Next(w, step).every == w.every
  {
    hide CaptureEnabled, CaptureNext, MarksReplaced;
  }

  lemma ReconciliationLeavesCount(w: World, step: Step)
    requires Enabled(w, step) && (step.StartReconciliation? || step.FinishReconciliation?) && !GivesUp(w, step)
    ensures Next(w, step).s.completedWindows == w.s.completedWindows && Next(w, step).every == w.every
  {
    hide IsDiff, WalkFinds, DropProcessed, Lasting, OutOfBand, OnlyToolOrGit, SameFiles;
  }

  ghost predicate CountLeftThroughout(w: World, steps: seq<Step>)
    requires Legal(w, steps)
    decreases |steps|
  {
    steps == [] || (LeavesCount(w, steps[0]) && CountLeftThroughout(Next(w, steps[0]), steps[1..]))
  }

  lemma {:induction false} CountStays(w: World, steps: seq<Step>)
    requires Legal(w, steps) && CountLeftThroughout(w, steps)
    ensures Execute(w, steps).s.completedWindows == w.s.completedWindows && Execute(w, steps).every == w.every
    decreases |steps|
  {
    if steps != [] {
      CountIsLeft(w, steps[0]);
      hide Next, Enabled, LeavesCount;
      CountStays(Next(w, steps[0]), steps[1..]);
    }
  }

  /** A reconciliation that gave up at a multiple of the period, or found the root replaced, is due again when the next window ends. */
  lemma DueAgain(w: World, step: Step, steps: seq<Step>)
    requires Enabled(w, step) && w.every > 0
    requires (step.Advance? && MarksReplaced(step.capture))
             || ((GivesUp(w, step) || step.AbortReconciliation?) && w.s.completedWindows > 0 && w.s.completedWindows % w.every == 0)
    requires Legal(Next(w, step), steps + [PublishEnd]) && Legal(Next(w, step), steps) && CountLeftThroughout(Next(w, step), steps)
    ensures Execute(Next(w, step), steps + [PublishEnd]).s.reconciliationScheduled
  {
    hide Next, Enabled, GivesUp, MarksReplaced, Execute, Legal, CountLeftThroughout;
    CountAfter(w, step);
    DueAtEnd(Next(w, step), steps);
  }

  lemma DueAtEnd(w: World, steps: seq<Step>)
    requires w.every > 0 && (w.s.completedWindows + 1) % w.every == 0
    requires Legal(w, steps + [PublishEnd]) && Legal(w, steps) && CountLeftThroughout(w, steps)
    ensures Execute(w, steps + [PublishEnd]).s.reconciliationScheduled
  {
    hide Next, Enabled, CountLeftThroughout;
    CountStays(w, steps);
    RunsCompose(w, steps, [PublishEnd]);
    hide Legal, Execute;
    var ending := Execute(w, steps);
    OneStep(ending, PublishEnd);
    EndSchedulesIff(ending);
  }

  lemma CountAfter(w: World, step: Step)
    requires Enabled(w, step) && w.every > 0
    requires (step.Advance? && MarksReplaced(step.capture))
             || ((GivesUp(w, step) || step.AbortReconciliation?) && w.s.completedWindows > 0 && w.s.completedWindows % w.every == 0)
    ensures Next(w, step).every == w.every && (Next(w, step).s.completedWindows + 1) % w.every == 0
  {
    if step.Advance? {
      ReplacedCount(w, step);
    } else {
      AbandonedCount(w, step);
    }
    hide Next, Enabled, GivesUp;
    assert w.every % w.every == 0;
  }

  lemma ReplacedCount(w: World, step: Step)
    requires Enabled(w, step) && w.every > 0 && step.Advance? && MarksReplaced(step.capture)
    ensures Next(w, step).every == w.every && Next(w, step).s.completedWindows + 1 == w.every
  {
    hide CaptureEnabled, CaptureNext;
  }

  lemma AbandonedCount(w: World, step: Step)
    requires Enabled(w, step) && (GivesUp(w, step) || step.AbortReconciliation?) && w.s.completedWindows > 0
    ensures Next(w, step).every == w.every && Next(w, step).s.completedWindows + 1 == w.s.completedWindows
  {
    hide IsDiff, WalkFinds;
  }
}
