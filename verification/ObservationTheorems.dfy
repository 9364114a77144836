/** What the invariant of the observation boundary gives its callers, over whole runs. */
module ObservationTheorems {
  import opened Options
  import opened Paths
  import opened Effects
  import opened Sessions
  import opened Observation
  import opened ObservationSafety

  // ---- Agreement with a full scan ----

  /** The files a full capture of an undisturbed disk records. */
  ghost predicate IsFullScan(disk: Disk, files: Files) {
    forall p :: if Ignored(p) then p !in files else SeenIn(files, p) == Observed(disk, p)
  }

  /** The result `endWindow` would return now. */
  function ResultNow(w: World): WindowResult
    requires w.flow.Ending? && Captured(w.flow.capture)
  {
    var c := w.flow.capture;
    ResultOf(w.s, w.flow.window, c.phase.files, c.phase.gaps, c.through)
  }

  lemma CompleteMeansNothingRecorded(w: World)
    requires Inv(w) && Enabled(w, PublishEnd) && ResultNow(w).complete
    ensures w.s.degraded == None && w.s.persistentGaps == [] && w.s.cursor == w.flow.capture.through
    ensures OnlyOrigin(w.flow.capture.phase.gaps)
  {
    var c, window := w.flow.capture, w.flow.window;
    var busy := if w.s.cursor > c.through then [BUSY_GAP] else [];
    OriginParts(window.gaps, c.phase.gaps, Degradation(w.s), busy);
    FirstElement(busy);
    FirstElement(Degradation(w.s));
    FirstElement(w.s.persistentGaps);
  }

  lemma OriginParts(a: seq<Gap>, b: seq<Gap>, c: seq<Gap>, d: seq<Gap>)
    requires OnlyOrigin(Unique(a + b + c + d))
    ensures OnlyOrigin(a) && OnlyOrigin(b) && OnlyOrigin(c) && OnlyOrigin(d)
  {
    assert forall g :: g in a || g in b || g in c || g in d ==> g in a + b + c + d;
  }

  lemma FirstElement(gaps: seq<Gap>)
    ensures gaps == [] || gaps[0] in gaps
  {
  }

  /**
   * In every guarded run, a window that ends complete returns the files a full scan would, except
   * at paths whose events the watcher has not delivered yet.
   */
  lemma CompleteWindowAgrees(start: World, steps: seq<Step>, w: World)
    requires Initial(start) && Legal(start, steps) && GuardedRun(start, steps) && w == Execute(start, steps)
    requires Enabled(w, PublishEnd) && ResultNow(w).complete
    ensures forall p :: Differs(ResultNow(w).files, w.disk, p) ==> Pending(w, p)
    ensures w.undelivered == multiset{} ==> IsFullScan(w.disk, ResultNow(w).files)
  {
    InitiallyInv(start);
    RunKeepsInv(start, steps);
    CompleteMeansNothingRecorded(w);
    OnlyPendingRemains(w, w.flow.capture.phase.files, w.s.persistentGaps + w.flow.capture.phase.gaps, w.flow.capture.through);
  }

  /** With nothing journaled, marked or recorded, an undelivered event is the only excuse left. */
  lemma OnlyPendingRemains(w: World, files: Files, gaps: seq<Gap>, after: nat)
    requires JournalOk(w) && after == w.s.cursor && !Marked(w.s) && (forall g :: g in gaps ==> g == ORIGIN_GAP)
    requires NoneIgnored(files) && Accounted(w, files, gaps, after, [])
    ensures forall p :: Differs(files, w.disk, p) ==> Pending(w, p)
    ensures w.undelivered == multiset{} ==> IsFullScan(w.disk, files)
  {
    forall p | Differs(files, w.disk, p)
      ensures Pending(w, p)
    {
      assert !GapAt(gaps, p);
      assert !Journaled(w.s, p, after);
    }
    if w.undelivered == multiset{} {
      assert forall p :: !Pending(w, p);
      forall p
        ensures if Ignored(p) then p !in files else SeenIn(files, p) == Observed(w.disk, p)
      {
        assert !Differs(files, w.disk, p);
      }
    }
  }

  /** The same between windows: the cache is a full scan once nothing is outstanding or recorded. */
  lemma QuietCacheIsFullScan(start: World, steps: seq<Step>, w: World)
    requires Initial(start) && Legal(start, steps) && GuardedRun(start, steps) && w == Execute(start, steps)
    requires w.s.snapshot.Some? && w.undelivered == multiset{} && w.s.processedCursor == w.s.cursor
    requires !Marked(w.s) && w.s.persistentGaps == []
    ensures IsFullScan(w.disk, w.s.snapshot.value)
  {
    InitiallyInv(start);
    RunKeepsInv(start, steps);
    OnlyPendingRemains(w, w.s.snapshot.value, [], w.s.cursor);
  }

  // ---- The guard on plain files is exact ----

  /** Reading a plain file keeps the capture accountable if and only if every path cached below it has another excuse. */
  lemma FileReadKeepsCaptureIff(w: World, c: Capture, hash: string)
    requires TreeShaped(w.disk) && CaptureOk(w, c) && CandidatesVisible(c) && c.epoch == w.epoch
    requires c.phase.Reading? && c.phase.candidates != [] && Lstat(w.disk, c.phase.candidates[0]) == IsFile(hash)
    ensures CaptureOk(w, CaptureNext(w.s, c, ReadNext(IsFile(hash), map[]))) <==> ShadowsExcused(w, c, c.phase.candidates[0])
  {
    var q, unread := c.phase.candidates[0], c.phase.candidates[1..];
    var d := CaptureNext(w.s, c, ReadNext(IsFile(hash), map[]));
    assert c.phase.gaps + [] == c.phase.gaps;
    if CaptureOk(w, d) {
      forall p | p in c.phase.files && q + "/" <= p
        ensures Excused(w, p, c.through) || GapAt(w.s.persistentGaps + c.phase.gaps, p) || exists x :: x in unread && Under(x, p)
      {
        assert p !in w.disk && p in d.phase.files;
        assert Differs(d.phase.files, w.disk, p);
      }
    }
    if ShadowsExcused(w, c, q) {
      forall p | Differs(d.phase.files, w.disk, p)
        ensures Excused(w, p, c.through) || GapAt(w.s.persistentGaps + c.phase.gaps, p) || exists x :: x in unread && Under(x, p)
      {
        assert p != q;
        if q + "/" <= p {
          assert p !in w.disk;
        } else {
          assert Differs(c.phase.files, w.disk, p);
          if x :| x in c.phase.candidates && Under(x, p) { assert x in unread; }
        }
      }
    }
  }

  // ---- The journal, in every run whatsoever ----

  ghost predicate JournalShape(w: World) {
    var n := |w.s.journal|;
    && n <= w.maxEntries && n <= w.s.cursor
    && (forall i :: 0 <= i < n ==> w.s.journal[i].cursor == w.s.cursor - n + 1 + i)
  }

  lemma {:induction false} DropKeepsShape(journal: seq<JournalEntry>, processed: nat)
    ensures var kept := DropProcessed(journal, processed);
            |kept| <= |journal| && kept == journal[|journal| - |kept|..]
  {
    if journal != [] && journal[0].cursor <= processed {
      DropKeepsShape(journal[1..], processed);
    }
  }

  ghost predicate Consecutive(journal: seq<JournalEntry>, cursor: nat) {
    |journal| <= cursor && forall i :: 0 <= i < |journal| ==> journal[i].cursor == cursor - |journal| + 1 + i
  }

  lemma SuffixIsConsecutive(journal: seq<JournalEntry>, cursor: nat, kept: seq<JournalEntry>)
    requires Consecutive(journal, cursor) && |kept| <= |journal| && kept == journal[|journal| - |kept|..]
    ensures Consecutive(kept, cursor)
  {
  }

  /** A step appends one entry, drops some from the front, or leaves the journal alone. */
  lemma JournalStep(w: World, step: Step)
    requires Enabled(w, step)
    ensures step.Deliver? ==> Next(w, step).s.journal == OnEvent(w.s, step.event, w.maxEntries).journal
    ensures step.Deliver? ==> Next(w, step).s.cursor == w.s.cursor + 1
    ensures !step.Deliver? ==> Next(w, step).s.cursor == w.s.cursor
    ensures !step.Deliver? ==>
              Next(w, step).s.journal == w.s.journal
              || Next(w, step).s.journal == DropProcessed(w.s.journal, Next(w, step).s.processedCursor)
    ensures Next(w, step).maxEntries == w.maxEntries
  {
    hide DropProcessed, Unique, Lasting, IsDiff, WalkFinds, IsCandidateList, ChangesIgnoreRules, NamesNoPath, Touched;
  }

  lemma StepKeepsJournalShape(w: World, step: Step)
    requires JournalShape(w) && Enabled(w, step)
    ensures JournalShape(Next(w, step))
  {
    hide Enabled, Next, DropProcessed;
    JournalStep(w, step);
    var v := Next(w, step);
    assert Consecutive(w.s.journal, w.s.cursor);
    if step.Deliver? {
      var all := w.s.journal + [JournalEntry(w.s.cursor + 1, step.event)];
      assert Consecutive(all, v.s.cursor);
      SuffixIsConsecutive(all, v.s.cursor, v.s.journal);
    } else if v.s.journal != w.s.journal {
      DropKeepsShape(w.s.journal, v.s.processedCursor);
      SuffixIsConsecutive(w.s.journal, w.s.cursor, v.s.journal);
    }
    assert Consecutive(v.s.journal, v.s.cursor);
  }

  /** Cursors stay consecutive, end at the session's cursor and stay within the bound: no guard is needed. */
  lemma {:induction false} JournalIsConsecutive(w: World, steps: seq<Step>)
    requires JournalShape(w) && Legal(w, steps)
    ensures JournalShape(Execute(w, steps))
    decreases |steps|
  {
    if steps != [] {
      StepKeepsJournalShape(w, steps[0]);
      JournalIsConsecutive(Next(w, steps[0]), steps[1..]);
    }
  }

  // ---- The journal covers what is unprocessed ----

  /** The journal holds exactly the cursors from the processed one to the session's. */
  ghost predicate JournalCovers(w: World) {
    JournalShape(w) && |w.s.journal| + w.s.processedCursor == w.s.cursor
  }

  /** Where the flows stand between the two cursors. */
  ghost predicate CursorsOk(w: World) {
    && (w.flow.Draining? || w.flow.BetweenPasses? || w.flow.Idle? || w.flow.FirstWalk? ==> w.s.activeCursor == None)
    && (w.flow.Draining? ==> w.flow.capture.through <= w.s.cursor)
    && (w.flow.Open? ==> w.s.activeCursor.Some? && w.flow.window.cursor == w.s.processedCursor)
    && (w.flow.Ending? ==> w.s.activeCursor.Some? && w.s.processedCursor <= w.flow.capture.through <= w.s.cursor)
    && (w.reconciliation.FullWalk? ==> w.reconciliation.through <= w.s.cursor)
    && (w.reconciliation.CatchingUp? ==> w.reconciliation.capture.through <= w.s.cursor)
  }

  /** What ends coverage: an event beyond the bound, or a drain pass that stops before what is already processed. */
  ghost predicate KeepsCoverage(w: World, step: Step)
    requires Enabled(w, step)
  {
    match step
    case Deliver(_) => |w.s.journal| < w.maxEntries
    case PublishPass(_) => w.s.processedCursor <= w.flow.capture.through
    case _ => true
  }

  lemma CoverageStep(w: World, step: Step)
    requires JournalCovers(w) && CursorsOk(w) && Enabled(w, step)
    requires !step.Deliver? && !step.PublishPass? && !step.PublishEnd? && !step.FinishReconciliation?
    ensures Next(w, step).s.journal == w.s.journal && Next(w, step).s.cursor == w.s.cursor
    ensures Next(w, step).s.processedCursor == w.s.processedCursor && CursorsOk(Next(w, step))
  {
    if step.Advance? {
      AdvanceCoverage(w, step);
    } else if step.Write? || step.Lose? || step.WatcherFails? || step.BeginOverlapping? {
      OutsideCoverage(w, step);
    } else {
      hide IsDiff, WalkFinds, IsCandidateList, Unique, Lasting, Touched, DropProcessed, Lstat, CaptureNext, CaptureEnabled, JournalShape;
    }
  }

  lemma AdvanceCoverage(w: World, step: Step)
    requires CursorsOk(w) && Enabled(w, step) && step.Advance?
    ensures Next(w, step).s.journal == w.s.journal && Next(w, step).s.cursor == w.s.cursor
    ensures Next(w, step).s.processedCursor == w.s.processedCursor && CursorsOk(Next(w, step))
  {
    var c := CaptureOf(w, step.who).value;
    var d := CaptureNext(w.s, c, step.capture);
    hide CaptureNext, CaptureEnabled;
    assert d.through == c.through;
  }

  lemma OutsideCoverage(w: World, step: Step)
    requires CursorsOk(w) && Enabled(w, step) && (step.Write? || step.Lose? || step.WatcherFails? || step.BeginOverlapping?)
    ensures Next(w, step).s.journal == w.s.journal && Next(w, step).s.cursor == w.s.cursor
    ensures Next(w, step).s.processedCursor == w.s.processedCursor && CursorsOk(Next(w, step))
  {
    hide Touched, TreeShaped;
  }

  lemma PassCoverage(w: World, step: Step)
    requires JournalCovers(w) && CursorsOk(w) && Enabled(w, step) && step.PublishPass?
    ensures JournalCovers(Next(w, step)) <==> KeepsCoverage(w, step)
    ensures CursorsOk(Next(w, step))
  {
    StepKeepsJournalShape(w, step);
    var through := w.flow.capture.through;
    DropIsSuffix(w.s.journal, through, w.s.cursor, through);
    hide DropProcessed, IsDiff, Unique, Lasting, JournalShape;
  }

  lemma EndCoverage(w: World)
    requires JournalCovers(w) && CursorsOk(w) && Enabled(w, PublishEnd)
    ensures JournalCovers(Next(w, PublishEnd)) && CursorsOk(Next(w, PublishEnd))
  {
    StepKeepsJournalShape(w, PublishEnd);
    var through := w.flow.capture.through;
    DropIsSuffix(w.s.journal, through, w.s.cursor, through);
    hide DropProcessed, IsDiff, Unique, Lasting, JournalShape, OnlyOrigin;
  }

  lemma ReconciliationCoverage(w: World, step: Step)
    requires JournalCovers(w) && CursorsOk(w) && Enabled(w, step) && step.FinishReconciliation?
    ensures JournalCovers(Next(w, step)) && CursorsOk(Next(w, step))
  {
    StepKeepsJournalShape(w, step);
    DropIsSuffix(w.s.journal, w.s.cursor, w.s.cursor, w.s.cursor);
    hide DropProcessed, IsDiff, WalkFinds, Unique, Lasting, JournalShape;
  }

  /** A step keeps the journal covering what is unprocessed exactly when it is neither an overflow nor a pass that lags behind. */
  lemma CoverageIsKeptIff(w: World, step: Step)
    requires JournalCovers(w) && CursorsOk(w) && Enabled(w, step)
    ensures JournalCovers(Next(w, step)) <==> KeepsCoverage(w, step)
    ensures CursorsOk(Next(w, step))
  {
    StepKeepsJournalShape(w, step);
    if step.Deliver? {
      JournalStep(w, step);
    } else if step.PublishPass? {
      PassCoverage(w, step);
    } else if step.PublishEnd? {
      EndCoverage(w);
    } else if step.FinishReconciliation? {
      ReconciliationCoverage(w, step);
    } else {
      CoverageStep(w, step);
    }
  }

  ghost predicate CoversThroughout(w: World, steps: seq<Step>)
    requires Legal(w, steps)
    decreases |steps|
  {
    JournalCovers(w) && (steps == [] || CoversThroughout(Next(w, steps[0]), steps[1..]))
  }

  ghost predicate CoverageRun(w: World, steps: seq<Step>)
    requires Legal(w, steps)
    decreases |steps|
  {
    steps == [] || (KeepsCoverage(w, steps[0]) && CoverageRun(Next(w, steps[0]), steps[1..]))
  }

  /** The journal covers (`processedCursor`, `cursor`] in every state of a run exactly until an overflow or a lagging pass. */
  lemma {:induction false} JournalCoversIff(w: World, steps: seq<Step>)
    requires JournalCovers(w) && CursorsOk(w) && Legal(w, steps)
    ensures CoversThroughout(w, steps) <==> CoverageRun(w, steps)
    decreases |steps|
  {
    if steps != [] {
      hide JournalCovers, CursorsOk, KeepsCoverage;
      CoverageIsKeptIff(w, steps[0]);
      if KeepsCoverage(w, steps[0]) { JournalCoversIff(Next(w, steps[0]), steps[1..]); }
    }
  }

  lemma InitiallyCovered(w: World)
    requires Initial(w)
    ensures JournalCovers(w) && CursorsOk(w)
  {
  }

  /** A pass over the snapshot it started from never lags behind. */
  lemma OwnPassKeepsCoverage(w: World, changes: seq<Change>)
    requires Inv(w) && Enabled(w, PublishPass(changes)) && w.flow.capture.epoch == w.epoch
    ensures KeepsCoverage(w, PublishPass(changes))
  {
  }

  // ---- Overflow is sticky ----

  /** The one step that replaces the snapshot by a full capture. */
  predicate Reconciles(w: World, step: Step) {
    step.FinishReconciliation? && w.reconciliation.FullWalk?
    && w.s.activeCursor == None && w.s.cursor == w.reconciliation.through
  }

  /** It finds nothing but tool and Git gaps, and the mark is a replaced root or an overflow that cost nothing. */
  predicate Heals(w: World, step: Step) {
    && Reconciles(w, step) && OnlyToolOrGit(step.fullGaps) && w.s.degraded.Some?
    && (w.s.degraded.value.kind.RootReplaced? || (step.same && w.s.degraded.value.kind.WatcherOverflow?))
  }

  /** No overlapping begin, and no reconciliation that heals. */
  ghost predicate Unrelieved(w: World, steps: seq<Step>)
    requires Legal(w, steps)
    decreases |steps|
  {
    steps == [] || (!steps[0].BeginOverlapping? && !Heals(w, steps[0]) && Unrelieved(Next(w, steps[0]), steps[1..]))
  }

  /** The steps that lose a mark are exactly the healing reconciliations and the overlapping begins, which heal nothing. */
  lemma MarkIsLostIff(w: World, step: Step)
    requires Enabled(w, step) && Marked(w.s)
    ensures !Marked(Next(w, step).s) <==> step.BeginOverlapping? || Heals(w, step)
  {
    if step.FinishReconciliation? {
      ReconciledMark(w, step);
    } else {
      OtherStepKeepsMark(w, step);
    }
  }

  lemma ReconciledMark(w: World, step: Step)
    requires Enabled(w, step) && Marked(w.s) && step.FinishReconciliation?
    ensures !Marked(Next(w, step).s) <==> Heals(w, step)
  {
    hide IsDiff, WalkFinds, Lasting, DropProcessed;
  }

  lemma OtherStepKeepsMark(w: World, step: Step)
    requires Enabled(w, step) && Marked(w.s) && !step.FinishReconciliation?
    ensures !Marked(Next(w, step).s) <==> step.BeginOverlapping?
  {
    hide IsDiff, WalkFinds, IsCandidateList, Unique, Lasting, ChangesIgnoreRules, NamesNoPath, Touched, Lstat, DropProcessed;
  }

  lemma MarkedIsIncomplete(w: World)
    requires Enabled(w, PublishEnd) && Marked(w.s)
    ensures !ResultNow(w).complete
  {
    var c := w.flow.capture;
    var parts := w.flow.window.gaps + c.phase.gaps + Degradation(w.s) + if w.s.cursor > c.through then [BUSY_GAP] else [];
    assert w.s.degraded.value in Degradation(w.s);
    assert w.s.degraded.value in parts;
  }

  /** From an overflow (or any other mark) until a full reconciliation heals it no window ends complete. */
  lemma {:induction false} MarkedWindowsAreDegraded(w: World, steps: seq<Step>)
    requires Legal(w, steps) && Unrelieved(w, steps) && Marked(w.s)
    ensures Marked(Execute(w, steps).s)
    ensures Enabled(Execute(w, steps), PublishEnd) ==> !ResultNow(Execute(w, steps)).complete
    decreases |steps|
  {
    if steps == [] {
      if Enabled(w, PublishEnd) {
        MarkedIsIncomplete(w);
      }
    } else {
      MarkIsLostIff(w, steps[0]);
      MarkedWindowsAreDegraded(Next(w, steps[0]), steps[1..]);
    }
  }

  /** An event beyond the journal's bound is such a mark. */
  lemma OverflowMarks(w: World, event: WatchPath)
    requires Enabled(w, Deliver(event)) && |w.s.journal| >= w.maxEntries
    ensures Next(w, Deliver(event)).s.degraded == Some(OVERFLOW_GAP) && Marked(Next(w, Deliver(event)).s)
  {
  }
}
