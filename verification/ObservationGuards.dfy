/**
 * The guards of `ObservationSafety` are exact: from a state that accounts for every difference, a step
 * leads to another such state if and only if it meets its guard.
 */
module ObservationGuards {
  import opened Options
  import opened Paths
  import opened Effects
  import opened Sessions
  import opened Observation
  import opened ObservationSafety
  import opened ObservationTheorems

  lemma DeliverNeedsGuard(w: World, event: WatchPath)
    requires Enabled(w, Deliver(event)) && Inv(w) && Inv(Next(w, Deliver(event)))
    ensures Guarded(w, Deliver(event))
  {
  }

  /** An overlapping begin must find everything accounted for without the mark it overwrites. */
  lemma OverlapNeedsGuard(w: World)
    requires Enabled(w, BeginOverlapping) && Inv(w) && Inv(Next(w, BeginOverlapping))
    ensures Guarded(w, BeginOverlapping)
  {
    ForgetKeepsInv(Unmarked(w), Next(w, BeginOverlapping));
  }

  lemma AdvanceNeedsGuard(w: World, who: Who, capture: CaptureStep)
    requires Enabled(w, Advance(who, capture)) && Inv(w) && Inv(Next(w, Advance(who, capture)))
    ensures Guarded(w, Advance(who, capture))
  {
    if MarksReplaced(capture) {
      ReplacedMark(w, who, capture);
    } else if who.WindowFlow? && capture.ReadNext? && capture.seen.IsFile? && CaptureOf(w, who).value.epoch == w.epoch {
      FileReadNeedsGuard(w, capture.seen.hash, capture.scanned);
    }
  }

  lemma ReplacedMark(w: World, who: Who, capture: CaptureStep)
    requires Enabled(w, Advance(who, capture)) && Inv(w) && Inv(Next(w, Advance(who, capture))) && MarksReplaced(capture)
    ensures MayOverwriteMark(w)
  {
    hide CaptureNext, CaptureEnabled;
    assert Next(w, Advance(who, capture)).s.degraded == Some(ROOT_GAP);
  }

  lemma FileReadNeedsGuard(w: World, hash: string, scanned: Files)
    requires Enabled(w, Advance(WindowFlow, ReadNext(IsFile(hash), scanned))) && Inv(w)
    requires Inv(Next(w, Advance(WindowFlow, ReadNext(IsFile(hash), scanned))))
    requires CaptureOf(w, WindowFlow).value.epoch == w.epoch
    ensures ShadowsExcused(w, CaptureOf(w, WindowFlow).value, CaptureOf(w, WindowFlow).value.phase.candidates[0])
  {
    var c, step := CaptureOf(w, WindowFlow).value, ReadNext(IsFile(hash), scanned);
    var d := CaptureNext(w.s, c, step);
    assert d == CaptureNext(w.s, c, ReadNext(IsFile(hash), map[]));
    var v := Next(w, Advance(WindowFlow, step));
    AdvanceIsSet(w, w, WindowFlow, step, d);
    assert CaptureOk(v, d) && CaptureOk(w, c) && CandidatesVisible(c);
    SameExcuses(v, w);
    FileReadKeepsCaptureIff(w, c, hash);
  }

  /** A pass that was overtaken must agree with the newer snapshot wherever it is wrong and unexcused. */
  lemma PassNeedsGuard(w: World, changes: seq<Change>)
    requires Enabled(w, PublishPass(changes)) && Inv(w) && Inv(Next(w, PublishPass(changes)))
    ensures Guarded(w, PublishPass(changes))
  {
    var v, c := Next(w, PublishPass(changes)), w.flow.capture;
    if c.epoch != w.epoch {
      assert v.s.snapshot == Some(c.phase.files) && v.s.processedCursor == c.through && v.s.degraded == w.s.degraded;
      DropIsSuffix(w.s.journal, c.through, w.s.cursor, c.through);
      PublishedIsHarmless(w, v, c);
    }
  }

  lemma PublishedIsHarmless(w: World, v: World, c: Capture)
    requires CacheOk(w) && JournalOk(w) && w.s.snapshot.Some? && c.phase.Reading? && c.through <= w.s.processedCursor
    requires CacheOk(v) && JournalOk(v) && v.s.snapshot == Some(c.phase.files) && v.s.processedCursor == c.through
    requires v.disk == w.disk && v.undelivered == w.undelivered && v.s.degraded == w.s.degraded && v.s.cursor == w.s.cursor
    requires v.s.journal == DropProcessed(w.s.journal, c.through)
    requires v.s.persistentGaps == Unique(w.s.persistentGaps + Lasting(c.phase.gaps))
    ensures OvertakenHarmlessly(w, c)
  {
    DropIsSuffix(w.s.journal, c.through, w.s.cursor, c.through);
    forall p | SeenIn(c.phase.files, p) != SeenIn(w.s.snapshot.value, p)
      ensures !Ignored(p)
      ensures SeenIn(c.phase.files, p) == Observed(w.disk, p)
              || Excused(w, p, c.through) || GapAt(w.s.persistentGaps + c.phase.gaps, p)
    {
      if SeenIn(c.phase.files, p) != Observed(w.disk, p) {
        assert Differs(c.phase.files, v.disk, p);
        if g :| g in v.s.persistentGaps && GapCovers(g, p) {
          assert g in w.s.persistentGaps + c.phase.gaps;
        } else {
          assert Excused(v, p, c.through);
          if e :| e in v.s.journal && e.cursor > c.through && Covers(e.path, p) { assert e in w.s.journal; }
        }
      }
    }
  }

  /** A step from an accounted state leads to an accounted state exactly when it meets its guard. */
  lemma InvIsKeptIff(w: World, step: Step)
    requires Enabled(w, step) && Inv(w)
    ensures Inv(Next(w, step)) <==> Guarded(w, step)
  {
    if Guarded(w, step) { StepKeepsInv(w, step); }
    if Inv(Next(w, step)) { NeedsGuard(w, step); }
  }

  lemma NeedsGuard(w: World, step: Step)
    requires Enabled(w, step) && Inv(w) && Inv(Next(w, step))
    ensures Guarded(w, step)
  {
    hide Inv, Next, Enabled;
    match step
    case Deliver(event) => DeliverNeedsGuard(w, event);
    case BeginOverlapping => OverlapNeedsGuard(w);
    case Advance(who, capture) => AdvanceNeedsGuard(w, who, capture);
    case PublishPass(changes) => PassNeedsGuard(w, changes);
    case _ =>
  }

  /** The invariant holds in every state of the run. */
  ghost predicate InvThroughout(w: World, steps: seq<Step>)
    requires Legal(w, steps)
    decreases |steps|
  {
    Inv(w) && (steps == [] || InvThroughout(Next(w, steps[0]), steps[1..]))
  }

  /** A run stays accounted for throughout if and only if it is guarded: no guarded run fails and no other run lasts. */
  lemma {:induction false} GuardedRunIff(w: World, steps: seq<Step>)
    requires Inv(w) && Legal(w, steps)
    ensures InvThroughout(w, steps) <==> GuardedRun(w, steps)
    decreases |steps|
  {
    if steps != [] {
      hide Inv, Guarded;
      InvIsKeptIff(w, steps[0]);
      if Guarded(w, steps[0]) { GuardedRunIff(Next(w, steps[0]), steps[1..]); }
    }
  }

  // ---- Conditions the session itself can see ----

  /**
   * Nothing here mentions the disk or undelivered events: no begin overlaps while a mark stands, a pass
   * publishes over its own snapshot only, the mark of a failed watcher is not overwritten, and a path is
   * read as a plain file only when everything cached below it is still to be read itself.
   */
  predicate Safe(w: World, step: Step)
    requires Enabled(w, step)
  {
    match step
    case Deliver(_) => |w.s.journal| < w.maxEntries || w.s.degraded != Some(UNAVAILABLE_GAP)
    case BeginOverlapping => !Marked(w.s)
    case Advance(who, capture) =>
      && (MarksReplaced(capture) ==> w.s.degraded != Some(UNAVAILABLE_GAP))
      && (who.WindowFlow? && capture.ReadNext? && capture.seen.IsFile? ==>
            var c := CaptureOf(w, who).value;
            forall p :: p in c.phase.files && c.phase.candidates[0] + "/" <= p ==> exists x :: x in c.phase.candidates[1..] && Under(x, p))
    case PublishPass(_) => w.flow.capture.epoch == w.epoch
    case _ => true
  }

  ghost predicate SafeRun(w: World, steps: seq<Step>)
    requires Legal(w, steps)
    decreases |steps|
  {
    steps == [] || (Safe(w, steps[0]) && SafeRun(Next(w, steps[0]), steps[1..]))
  }

  lemma {:induction false} SafeRunIsGuarded(w: World, steps: seq<Step>)
    requires Legal(w, steps) && SafeRun(w, steps)
    ensures GuardedRun(w, steps)
    decreases |steps|
  {
    if steps != [] {
      SafeIsGuarded(w, steps[0]);
      hide Guarded, Safe;
      SafeRunIsGuarded(Next(w, steps[0]), steps[1..]);
    }
  }

  lemma SafeIsGuarded(w: World, step: Step)
    requires Enabled(w, step) && Safe(w, step)
    ensures Guarded(w, step)
  {
    hide Next, Inv, OvertakenHarmlessly, Excused, GapAt, Under;
  }

  /**
   * From the start, a run that meets the session's own conditions accounts for every difference in every
   * state, and a complete window at its end returns what a full scan would except where events are undelivered.
   */
  lemma SafeRunIsAccounted(start: World, steps: seq<Step>)
    requires Initial(start) && Legal(start, steps) && SafeRun(start, steps)
    ensures InvThroughout(start, steps)
    ensures var w := Execute(start, steps);
            Enabled(w, PublishEnd) && ResultNow(w).complete ==>
              forall p :: Differs(ResultNow(w).files, w.disk, p) ==> Pending(w, p)
  {
    InitiallyInv(start);
    SafeRunIsGuarded(start, steps);
    GuardedRunIff(start, steps);
    var w := Execute(start, steps);
    if Enabled(w, PublishEnd) && ResultNow(w).complete { CompleteWindowAgrees(start, steps, w); }
  }

  /** No event arrives at a full journal. */
  predicate RoomFor(w: World, step: Step) {
    step.Deliver? ==> |w.s.journal| < w.maxEntries
  }

  ghost predicate RoomThroughout(w: World, steps: seq<Step>)
    requires Legal(w, steps)
    decreases |steps|
  {
    steps == [] || (RoomFor(w, steps[0]) && RoomThroughout(Next(w, steps[0]), steps[1..]))
  }

  /** If also no event ever meets a full journal, the journal covers what is unprocessed in every state. */
  lemma SafeRunIsCovered(start: World, steps: seq<Step>)
    requires Initial(start) && Legal(start, steps) && SafeRun(start, steps) && RoomThroughout(start, steps)
    ensures CoversThroughout(start, steps)
  {
    InitiallyInv(start);
    InitiallyCovered(start);
    SafeRunKeepsCoverage(start, steps);
    JournalCoversIff(start, steps);
  }

  lemma {:induction false} SafeRunKeepsCoverage(w: World, steps: seq<Step>)
    requires Inv(w) && Legal(w, steps) && SafeRun(w, steps) && RoomThroughout(w, steps)
    ensures CoverageRun(w, steps)
    decreases |steps|
  {
    if steps != [] {
      var step := steps[0];
      SafeIsGuarded(w, step);
      StepKeepsInv(w, step);
      if step.PublishPass? { OwnPassKeepsCoverage(w, step.changes); }
      hide Inv, Next, Enabled, Guarded;
      SafeRunKeepsCoverage(Next(w, step), steps[1..]);
    }
  }
}
