/**
 * What every run of the observation boundary keeps: wherever the cached snapshot differs from the
 * disk, an event still to come, a journal entry still to be read, a recorded gap or a degradation
 * mark accounts for it.
 */
module ObservationSafety {
  import opened Options
  import opened Paths
  import opened Effects
  import opened Sessions
  import opened Observation

  // ---- What accounts for a difference ----

  ghost predicate Pending(w: World, p: string) {
    exists e :: e in w.undelivered && Covers(e, p)
  }

  ghost predicate Journaled(s: Session, p: string, after: nat) {
    exists e :: e in s.journal && e.cursor > after && Covers(e.path, p)
  }

  /** A mark that only a full capture, or nothing, takes away. */
  predicate Marked(s: Session) {
    s.degraded == Some(OVERFLOW_GAP) || s.degraded == Some(UNAVAILABLE_GAP) || s.degraded == Some(ROOT_GAP)
  }

  ghost predicate Excused(w: World, p: string, after: nat) {
    Pending(w, p) || Journaled(w.s, p, after) || Marked(w.s)
  }

  ghost predicate Accounted(w: World, files: Files, gaps: seq<Gap>, after: nat, unread: seq<string>) {
    forall p :: Differs(files, w.disk, p) ==>
      Excused(w, p, after) || GapAt(gaps, p) || exists c :: c in unread && Under(c, p)
  }

  ghost predicate AllExcused(w: World, paths: set<string>, after: nat) {
    forall p :: p in paths && !Ignored(p) ==> Excused(w, p, after)
  }

  ghost predicate NoneIgnored(files: Files) {
    forall p :: p in files ==> !Ignored(p)
  }

  // ---- The invariant ----

  ghost predicate CacheOk(w: World) {
    match w.s.snapshot
    case None => w.s.processedCursor == 0
    case Some(files) => NoneIgnored(files) && Accounted(w, files, w.s.persistentGaps, w.s.processedCursor, [])
  }

  /** Cursors are consecutive and end at the session's; the journal is bounded, and complete unless marked. */
  ghost predicate JournalOk(w: World) {
    var n := |w.s.journal|;
    && n <= w.s.cursor && n <= w.maxEntries && w.s.processedCursor <= w.s.cursor
    && (forall i :: 0 <= i < n ==> w.s.journal[i].cursor == w.s.cursor - n + 1 + i)
    && (Marked(w.s) || n == w.s.cursor - w.s.processedCursor)
  }

  ghost predicate PhaseOk(w: World, c: Capture) {
    match c.phase
    case Identifying(base) => w.s.snapshot == Some(base)
    case Reading(files, candidates, gaps) =>
      NoneIgnored(files) && Accounted(w, files, w.s.persistentGaps + gaps, c.through, candidates)
    case Walking(touched) => AllExcused(w, touched, c.through)
  }

  /** A capture is only answerable while the snapshot it started from is the session's. */
  ghost predicate CaptureOk(w: World, c: Capture) {
    && c.from <= c.through <= w.s.cursor && c.epoch <= w.epoch
    && (c.epoch == w.epoch ==> c.from == w.s.processedCursor && PhaseOk(w, c))
  }

  /** Candidates are never ignored paths, so reading one never caches an ignored path. */
  ghost predicate CandidatesVisible(c: Capture) {
    c.phase.Reading? ==> forall q :: q in c.phase.candidates ==> !Ignored(q)
  }

  ghost predicate WindowOk(w: World, window: Window) {
    && w.s.activeCursor == Some(window.cursor) && window.cursor == w.s.processedCursor && w.s.snapshot.Some?
    && (forall g :: g in w.s.persistentGaps ==> g in window.gaps)
  }

  ghost predicate FlowOk(w: World) {
    match w.flow
    case Idle => w.s.activeCursor == None
    case FirstWalk(touched) =>
      w.s.activeCursor == None && w.s.snapshot == None && w.s.processedCursor == 0 && AllExcused(w, touched, 0)
    case BetweenPasses(_) => w.s.activeCursor == None && w.s.snapshot.Some?
    case Draining(_, _, c) =>
      && w.s.activeCursor == None && w.s.snapshot.Some? && CaptureOk(w, c) && CandidatesVisible(c)
      && (c.epoch < w.epoch ==> c.through <= w.s.processedCursor)
    case Open(window) => WindowOk(w, window)
    case Ending(window, c) => WindowOk(w, window) && CaptureOk(w, c) && CandidatesVisible(c) && c.epoch == w.epoch
  }

  ghost predicate ReconciliationOk(w: World) {
    match w.reconciliation
    case NoReconciliation => true
    case CatchingUp(_, c) => w.s.snapshot.Some? && c.through <= w.s.cursor
    case FullWalk(_, _, through, _, touched) =>
      && w.s.snapshot.Some? && through <= w.s.cursor
      && (through == w.s.cursor && w.watching ==> forall p :: p in touched && !Ignored(p) ==> Pending(w, p))
  }

  ghost predicate MarksOk(w: World) {
    && (!w.watching ==> w.s.degraded == Some(UNAVAILABLE_GAP))
    && (w.s.degraded.Some? ==> Marked(w.s) || w.s.degraded == Some(OVERLAP_GAP))
    && (forall g :: g in w.s.persistentGaps ==> g.scope != ToolEffects)
  }

  ghost predicate Inv(w: World) {
    && TreeShaped(w.disk) && CacheOk(w) && JournalOk(w) && FlowOk(w) && ReconciliationOk(w) && MarksOk(w)
  }

  // ---- Which steps keep it ----

  /** Nothing cached below `q`, the next candidate, is left without an excuse. */
  ghost predicate ShadowsExcused(w: World, c: Capture, q: string)
    requires c.phase.Reading? && c.phase.candidates != []
  {
    forall p :: p in c.phase.files && q + "/" <= p ==>
      Excused(w, p, c.through) || GapAt(w.s.persistentGaps + c.phase.gaps, p)
      || exists x :: x in c.phase.candidates[1..] && Under(x, p)
  }

  /** A live watcher's failure may be forgotten, a dead watcher's may not. */
  predicate MayOverwriteMark(w: World) {
    w.watching || w.s.degraded != Some(UNAVAILABLE_GAP)
  }

  /**
   * A pass overtaken by another publication does no harm: the journal was not cut beyond where the
   * pass stops, and where its files differ from the newer snapshot they are right or excused.
   */
  ghost predicate OvertakenHarmlessly(w: World, c: Capture)
    requires w.s.snapshot.Some? && c.phase.Reading?
  {
    && (c.through == w.s.processedCursor || Marked(w.s))
    && forall p :: SeenIn(c.phase.files, p) != SeenIn(w.s.snapshot.value, p) ==>
         !Ignored(p) && (SeenIn(c.phase.files, p) == Observed(w.disk, p)
                         || Excused(w, p, c.through) || GapAt(w.s.persistentGaps + c.phase.gaps, p))
  }

  /** The same world without its mark. */
  function Unmarked(w: World): World {
    w.(s := w.s.(degraded := None))
  }

  /**
   * What the code does not check and would have to: that a drain pass does not publish over a newer
   * snapshot it contradicts, that nothing unexplained is cached below a path it reads as a plain file,
   * and that no mark is overwritten on which something still rests.
   */
  ghost predicate Guarded(w: World, step: Step)
    requires Enabled(w, step)
  {
    match step
    case Deliver(_) => |w.s.journal| < w.maxEntries || MayOverwriteMark(w)
    case BeginOverlapping => Marked(w.s) ==> Inv(Unmarked(w))
    case Advance(who, capture) =>
      && (MarksReplaced(capture) ==> MayOverwriteMark(w))
      && (who.WindowFlow? && capture.ReadNext? && capture.seen.IsFile? ==>
            var c := CaptureOf(w, who).value;
            c.epoch == w.epoch ==> ShadowsExcused(w, c, c.phase.candidates[0]))
    case PublishPass(_) => w.flow.capture.epoch == w.epoch || (w.s.snapshot.Some? && OvertakenHarmlessly(w, w.flow.capture))
    case _ => true
  }

  ghost predicate GuardedRun(w: World, steps: seq<Step>)
    requires Legal(w, steps)
    decreases |steps|
  {
    steps == [] || (Guarded(w, steps[0]) && GuardedRun(Next(w, steps[0]), steps[1..]))
  }

  lemma InitiallyInv(w: World)
    requires Initial(w)
    ensures Inv(w)
  {
  }

  // ---- How excuses survive ----

  /** Later worlds in which nothing that excused a path has gone. */
  ghost predicate KeepsExcuses(w: World, v: World, after: nat) {
    forall p :: Excused(w, p, after) ==> Excused(v, p, after)
  }

  lemma AccountedKept(w: World, v: World, files: Files, gaps: seq<Gap>, more: seq<Gap>, after: nat, unread: seq<string>)
    requires Accounted(w, files, gaps, after, unread) && KeepsExcuses(w, v, after) && v.disk == w.disk
    requires forall g :: g in gaps ==> g in more
    ensures Accounted(v, files, more, after, unread)
  {
  }

  lemma DeliverKeepsExcuses(w: World, event: WatchPath, after: nat)
    requires Enabled(w, Deliver(event)) && after <= w.s.cursor
    ensures KeepsExcuses(w, Next(w, Deliver(event)), after)
    ensures JournalOk(w) ==> JournalOk(Next(w, Deliver(event)))
  {
    var v := Next(w, Deliver(event));
    if |w.s.journal| + 1 <= w.maxEntries {
      var entry := JournalEntry(w.s.cursor + 1, event);
      assert v.s.journal == w.s.journal + [entry];
      assert entry in v.s.journal;
      forall p | Excused(w, p, after)
        ensures Excused(v, p, after)
      {
        if e :| e in w.undelivered && Covers(e, p) {
          if e != event { assert e in v.undelivered; }
        } else if e :| e in w.s.journal && e.cursor > after && Covers(e.path, p) {
          assert e in v.s.journal;
        }
      }
    }
  }

  lemma WriteKeepsExcuses(w: World, disk: Disk, events: multiset<WatchPath>, after: nat)
    requires Enabled(w, Write(disk, events)) && MarksOk(w)
    ensures KeepsExcuses(w, Next(w, Write(disk, events)), after)
    ensures AllExcused(Next(w, Write(disk, events)), Touched(w.disk, disk), after)
  {
    var v := Next(w, Write(disk, events));
    forall p | Pending(w, p) ensures Pending(v, p) {
      var e :| e in w.undelivered && Covers(e, p);
      assert e in v.undelivered;
    }
    forall p | p in Touched(w.disk, disk) && !Ignored(p) && w.watching ensures Pending(v, p) {
      var e :| e in events && Covers(e, p);
      assert e in v.undelivered;
    }
  }

  /** A cache that was accounted for still is after a write: every path written to is excused. */
  lemma WriteKeepsAccounts(w: World, disk: Disk, events: multiset<WatchPath>, files: Files, gaps: seq<Gap>, after: nat, unread: seq<string>)
    requires Enabled(w, Write(disk, events)) && MarksOk(w)
    requires Accounted(w, files, gaps, after, unread)
    ensures Accounted(Next(w, Write(disk, events)), files, gaps, after, unread)
  {
    var v := Next(w, Write(disk, events));
    WriteKeepsExcuses(w, disk, events, after);
    forall p | Differs(files, disk, p)
      ensures Excused(v, p, after) || GapAt(gaps, p) || exists c :: c in unread && Under(c, p)
    {
      if p !in Touched(w.disk, disk) {
        assert Observed(w.disk, p) == Observed(disk, p);
        assert Differs(files, w.disk, p);
      }
    }
  }

  lemma WriteKeepsCapture(w: World, disk: Disk, events: multiset<WatchPath>, c: Capture)
    requires Enabled(w, Write(disk, events)) && MarksOk(w) && CaptureOk(w, c)
    ensures CaptureOk(Next(w, Write(disk, events)), TouchCapture(c, Touched(w.disk, disk)))
  {
    WriteKeepsExcuses(w, disk, events, c.through);
    if c.epoch == w.epoch && c.phase.Reading? {
      WriteKeepsAccounts(w, disk, events, c.phase.files, w.s.persistentGaps + c.phase.gaps, c.through, c.phase.candidates);
    }
  }

  lemma WriteKeepsInv(w: World, disk: Disk, events: multiset<WatchPath>)
    requires Enabled(w, Write(disk, events)) && Inv(w)
    ensures Inv(Next(w, Write(disk, events)))
  {
    var v := Next(w, Write(disk, events));
    if w.s.snapshot.Some? {
      WriteKeepsAccounts(w, disk, events, w.s.snapshot.value, w.s.persistentGaps, w.s.processedCursor, []);
    }
    match w.flow {
      case FirstWalk(_) => WriteKeepsExcuses(w, disk, events, 0);
      case Draining(_, _, c) => WriteKeepsCapture(w, disk, events, c);
      case Ending(_, c) => WriteKeepsCapture(w, disk, events, c);
      case _ =>
    }
    if w.reconciliation.FullWalk? && w.watching {
      forall p | Pending(w, p) ensures Pending(v, p) {
        var e :| e in w.undelivered && Covers(e, p);
        assert e in v.undelivered;
      }
      forall p | p in Touched(w.disk, disk) && !Ignored(p) ensures Pending(v, p) {
        var e :| e in events && Covers(e, p);
        assert e in v.undelivered;
      }
    }
  }

  /** Steps that only add excuses and leave disk, snapshot, cursors and flow alone. */
  lemma CaptureKept(w: World, v: World, c: Capture)
    requires CaptureOk(w, c) && KeepsExcuses(w, v, c.through) && v.disk == w.disk && v.epoch == w.epoch
    requires v.s.snapshot == w.s.snapshot && v.s.persistentGaps == w.s.persistentGaps
    requires v.s.processedCursor == w.s.processedCursor && v.s.cursor >= w.s.cursor
    ensures CaptureOk(v, c)
  {
    if c.epoch == w.epoch && c.phase.Reading? {
      var gaps := w.s.persistentGaps + c.phase.gaps;
      AccountedKept(w, v, c.phase.files, gaps, gaps, c.through, c.phase.candidates);
    }
  }

  /** The part of the invariant that speaks of the cache and of the window flow's capture. */
  lemma FlowKept(w: World, v: World)
    requires CacheOk(w) && FlowOk(w) && JournalOk(w)
    requires forall after: nat :: after <= w.s.cursor ==> KeepsExcuses(w, v, after)
    requires v.disk == w.disk && v.epoch == w.epoch && v.flow == w.flow
    requires v.s.snapshot == w.s.snapshot && v.s.persistentGaps == w.s.persistentGaps && v.s.activeCursor == w.s.activeCursor
    requires v.s.processedCursor == w.s.processedCursor && v.s.cursor >= w.s.cursor
    ensures CacheOk(v) && FlowOk(v)
  {
    if w.s.snapshot.Some? {
      AccountedKept(w, v, w.s.snapshot.value, w.s.persistentGaps, w.s.persistentGaps, w.s.processedCursor, []);
    }
    assert KeepsExcuses(w, v, 0);
    match w.flow
    case Draining(_, _, c) => CaptureKept(w, v, c);
    case Ending(_, c) => CaptureKept(w, v, c);
    case _ =>
  }

  lemma DeliverKeepsInv(w: World, event: WatchPath)
    requires Enabled(w, Deliver(event)) && Inv(w) && Guarded(w, Deliver(event))
    ensures Inv(Next(w, Deliver(event)))
  {
    var v := Next(w, Deliver(event));
    forall after: nat | after <= w.s.cursor ensures KeepsExcuses(w, v, after) {
      DeliverKeepsExcuses(w, event, after);
    }
    DeliverKeepsExcuses(w, event, 0);
    FlowKept(w, v);
  }

  /** Losing an event, a failing watcher and an overlapping begin. */
  lemma MarksKeepInv(w: World, step: Step)
    requires step.Lose? || step.WatcherFails? || step.BeginOverlapping?
    requires Enabled(w, step) && Inv(w) && Guarded(w, step)
    ensures Inv(Next(w, step))
  {
    var v := Next(w, step);
    if step.BeginOverlapping? && Marked(w.s) {
      ForgetKeepsInv(Unmarked(w), v);
    } else {
      forall after: nat | after <= w.s.cursor ensures KeepsExcuses(w, v, after) {
      }
      FlowKept(w, v);
    }
  }

  /** No mark and the overlap mark excuse alike: nothing. */
  lemma ForgetKeepsInv(u: World, v: World)
    requires u.s.degraded == None && v == u.(s := OverlapBegin(u.s))
    ensures Inv(u) <==> Inv(v)
  {
    var x := v.(s := v.s.(degraded := None));
    assert x == u;
    forall after: nat ensures KeepsExcuses(u, v, after) && KeepsExcuses(v, u, after) { }
    if Inv(u) { FlowKept(u, v); }
    if Inv(v) { FlowKept(v, u); }
  }

  // ---- Captures ----

  /** Every journal entry a capture must look at has become a candidate or a gap. */
  lemma EntryBecomesCandidate(w: World, c: Capture, candidates: seq<string>, p: string)
    requires c.from == w.s.processedCursor && Journaled(w.s, p, c.from) && !Ignored(p)
    requires IsCandidateList(w.s.journal, c.from, c.through, candidates)
    ensures Journaled(w.s, p, c.through) || NamesNoPath(w.s.journal, c.from, c.through)
            || exists q :: q in candidates && Under(q, p)
  {
    var e :| e in w.s.journal && e.cursor > c.from && Covers(e.path, p);
    if e.cursor <= c.through && e.path.Changed? {
      if Ignored(e.path.path) {
        IgnoredBelow(e.path.path, p);
      }
      assert IsCandidate(w.s.journal, c.from, c.through, e.path.path);
    }
  }

  lemma IdentifyKeepsCapture(w: World, c: Capture, candidates: seq<string>, replaced: bool)
    requires CacheOk(w) && CaptureOk(w, c) && CaptureEnabled(w, c, Identify(candidates, replaced))
    ensures CaptureOk(w, CaptureNext(w.s, c, Identify(candidates, replaced)))
  {
    var d := CaptureNext(w.s, c, Identify(candidates, replaced));
    if c.epoch == w.epoch && d.phase.Reading? {
      var gaps := w.s.persistentGaps + d.phase.gaps;
      forall p | Differs(d.phase.files, w.disk, p)
        ensures Excused(w, p, c.through) || GapAt(gaps, p) || exists q :: q in candidates && Under(q, p)
      {
        if g :| g in w.s.persistentGaps && GapCovers(g, p) {
          assert g in gaps;
        } else if Journaled(w.s, p, c.from) {
          EntryBecomesCandidate(w, c, candidates, p);
          if NamesNoPath(w.s.journal, c.from, c.through) {
            assert NO_PATH_GAP in gaps && GapCovers(NO_PATH_GAP, p);
          }
        }
      }
    }
  }

  lemma MoreGaps(gaps: seq<Gap>, more: seq<Gap>, p: string)
    requires GapAt(gaps, p) && forall g :: g in gaps ==> g in more
    ensures GapAt(more, p)
  {
    var g :| g in gaps && GapCovers(g, p);
    assert g in more;
  }

  /** Reading one candidate settles every path the candidate was the excuse for. */
  lemma ReadSettles(w: World, files: Files, q: string, unread: seq<string>, gaps: seq<Gap>, seen: Lookup, scanned: Files, p: string)
    requires TreeShaped(w.disk)
    requires seen == Lstat(w.disk, q) || seen.Unreadable? || (seen.AlreadyHashed? && GapAt(gaps, q))
    requires !seen.IsFile?
    requires Under(q, p) && Differs(ReadCandidate(files, q, seen, scanned), w.disk, p)
    ensures GapAt(gaps + CandidateGaps(q, seen), p) || exists c :: c in unread && Under(c, p)
  {
    assert seen.NotFound? ==> p !in w.disk;
    match seen
    case IsFile(_) =>
    case NotFound =>
    case AlreadyHashed =>
      var g :| g in gaps && GapCovers(g, q);
      if g.scope.AtPath? { UnderIsTransitive(g.scope.path, q, p); }
      assert g in gaps + CandidateGaps(q, seen) && GapCovers(g, p);
    case _ =>
      var g := Gap(Unverified, AtPath(q));
      assert CandidateGaps(q, seen) == [g] && GapCovers(g, p);
      assert (gaps + [g])[|gaps|] == g;
  }

  /** After reading a plain file the differences at and below it are the cached paths below it. */
  lemma FileLeavesShadows(w: World, files: Files, q: string, hash: string, p: string)
    requires TreeShaped(w.disk) && Lstat(w.disk, q) == IsFile(hash) && Under(q, p)
    requires Differs(ReadCandidate(files, q, IsFile(hash), map[]), w.disk, p)
    ensures p in files && q + "/" <= p
  {
    assert p != q;
    assert p !in w.disk;
  }

  lemma ReadLeavesRest(files: Files, q: string, seen: Lookup, scanned: Files, p: string)
    requires !Under(q, p) && (seen.IsDirectory? ==> ScanOf(files, q, scanned))
    ensures SeenIn(ReadCandidate(files, q, seen, scanned), p) == SeenIn(files, p)
  {
  }

  lemma ReadKeepsCapture(w: World, c: Capture, seen: Lookup, scanned: Files)
    requires TreeShaped(w.disk) && CaptureOk(w, c) && CaptureEnabled(w, c, ReadNext(seen, scanned)) && CandidatesVisible(c)
    requires seen.IsFile? && c.epoch == w.epoch ==> ShadowsExcused(w, c, c.phase.candidates[0])
    ensures CaptureOk(w, CaptureNext(w.s, c, ReadNext(seen, scanned)))
  {
    var d := CaptureNext(w.s, c, ReadNext(seen, scanned));
    if c.epoch == w.epoch {
      var q, unread := c.phase.candidates[0], c.phase.candidates[1..];
      var was := w.s.persistentGaps + c.phase.gaps;
      var gaps := w.s.persistentGaps + d.phase.gaps;
      assert gaps == was + CandidateGaps(q, seen);
      forall p | Differs(d.phase.files, w.disk, p)
        ensures Excused(w, p, c.through) || GapAt(gaps, p) || exists x :: x in unread && Under(x, p)
      {
        if Under(q, p) && seen.IsFile? {
          FileLeavesShadows(w, c.phase.files, q, seen.hash, p);
          if GapAt(was, p) { MoreGaps(was, gaps, p); }
        } else if Under(q, p) {
          if seen.AlreadyHashed? { MoreGaps(c.phase.gaps, was, q); }
          ReadSettles(w, c.phase.files, q, unread, was, seen, scanned, p);
        } else {
          ReadLeavesRest(c.phase.files, q, seen, scanned, p);
          assert Differs(c.phase.files, w.disk, p);
          if GapAt(was, p) { MoreGaps(was, gaps, p); }
          if x :| x in c.phase.candidates && Under(x, p) { assert x in unread; }
        }
      }
    }
  }

  lemma WalkKeepsCapture(w: World, c: Capture, walked: Files, found: seq<Gap>)
    requires CaptureOk(w, c) && CaptureEnabled(w, c, FinishWalk(walked, found))
    ensures CaptureOk(w, CaptureNext(w.s, c, FinishWalk(walked, found)))
  {
    var d := CaptureNext(w.s, c, FinishWalk(walked, found));
    if c.epoch == w.epoch {
      var gaps := w.s.persistentGaps + d.phase.gaps;
      forall p | Differs(walked, w.disk, p)
        ensures Excused(w, p, c.through) || GapAt(gaps, p)
      {
        if GapAt(found, p) { MoreGaps(found, gaps, p); }
      }
    }
  }

  lemma NoteKeepsCapture(w: World, c: Capture, step: CaptureStep)
    requires step.NoteGap? || step.FindReplaced?
    requires CaptureOk(w, c) && CaptureEnabled(w, c, step)
    ensures CaptureOk(w, CaptureNext(w.s, c, step))
  {
    var d := CaptureNext(w.s, c, step);
    if c.epoch == w.epoch {
      AccountedKept(w, w, c.phase.files, w.s.persistentGaps + c.phase.gaps, w.s.persistentGaps + d.phase.gaps, c.through, c.phase.candidates);
    }
  }

  lemma AdvanceKeepsCapture(w: World, c: Capture, step: CaptureStep)
    requires TreeShaped(w.disk) && CacheOk(w) && CaptureOk(w, c) && CaptureEnabled(w, c, step) && CandidatesVisible(c)
    requires step.ReadNext? && step.seen.IsFile? && c.epoch == w.epoch ==> ShadowsExcused(w, c, c.phase.candidates[0])
    ensures CaptureOk(w, CaptureNext(w.s, c, step)) && CandidatesVisible(CaptureNext(w.s, c, step))
  {
    match step
    case Identify(candidates, replaced) => IdentifyKeepsCapture(w, c, candidates, replaced);
    case ReadNext(seen, scanned) => ReadKeepsCapture(w, c, seen, scanned);
    case FinishWalk(walked, gaps) => WalkKeepsCapture(w, c, walked, gaps);
    case _ => NoteKeepsCapture(w, c, step);
  }

  // ---- Publications ----

  lemma PruneKeeps(w: World, through: nat, after: nat)
    requires JournalOk(w) && w.s.processedCursor <= through <= w.s.cursor && through <= after
    ensures var journal := DropProcessed(w.s.journal, through);
            && |journal| <= |w.s.journal|
            && (forall i :: 0 <= i < |journal| ==> journal[i].cursor == w.s.cursor - |journal| + 1 + i)
            && (|w.s.journal| == w.s.cursor - w.s.processedCursor ==> |journal| == w.s.cursor - through)
            && (forall e :: e in w.s.journal && e.cursor > after ==> e in journal)
            && (forall e :: e in journal ==> e in w.s.journal && e.cursor > through)
  {
    DropIsSuffix(w.s.journal, through, w.s.cursor, after);
  }

  lemma {:induction false} DropLength(journal: seq<JournalEntry>, processed: nat, cursor: nat)
    requires |journal| <= cursor && processed <= cursor
    requires forall i :: 0 <= i < |journal| ==> journal[i].cursor == cursor - |journal| + 1 + i
    ensures var kept := DropProcessed(journal, processed);
            && |kept| == (if |journal| <= cursor - processed then |journal| else cursor - processed)
            && kept == journal[|journal| - |kept|..]
  {
    if journal != [] && journal[0].cursor <= processed {
      DropLength(journal[1..], processed, cursor);
    }
  }

  lemma DropIsSuffix(journal: seq<JournalEntry>, processed: nat, cursor: nat, after: nat)
    requires |journal| <= cursor && processed <= cursor && processed <= after
    requires forall i :: 0 <= i < |journal| ==> journal[i].cursor == cursor - |journal| + 1 + i
    ensures var kept := DropProcessed(journal, processed);
            && |kept| == (if |journal| <= cursor - processed then |journal| else cursor - processed)
            && kept == journal[|journal| - |kept|..]
            && (forall e :: e in journal && e.cursor > after ==> e in kept)
            && (forall e :: e in kept ==> e in journal && e.cursor > processed)
  {
    DropLength(journal, processed, cursor);
    var kept := DropProcessed(journal, processed);
    hide DropProcessed;
    var cut := |journal| - |kept|;
    forall e | e in journal && e.cursor > after ensures e in kept {
      var i :| 0 <= i < |journal| && journal[i] == e;
      assert kept[i - cut] == e;
    }
    forall e | e in kept ensures e in journal && e.cursor > processed {
      var i :| 0 <= i < |kept| && kept[i] == e;
      assert journal[cut + i] == e;
    }
  }

  /** What a published capture leaves behind accounts for the new snapshot. */
  lemma PublishedAccounts(w: World, v: World, c: Capture)
    requires CaptureOk(w, c) && c.epoch == w.epoch && Captured(c) && JournalOk(w)
    requires v.disk == w.disk && v.undelivered == w.undelivered && (Marked(w.s) ==> Marked(v.s))
    requires v.s.journal == DropProcessed(w.s.journal, c.through)
    requires v.s.persistentGaps == Unique(w.s.persistentGaps + Lasting(c.phase.gaps))
    ensures Accounted(v, c.phase.files, v.s.persistentGaps, c.through, [])
  {
    PruneKeeps(w, c.through, c.through);
    forall p | Differs(c.phase.files, v.disk, p)
      ensures Excused(v, p, c.through) || GapAt(v.s.persistentGaps, p)
    {
      if g :| g in w.s.persistentGaps + c.phase.gaps && GapCovers(g, p) {
        assert g in v.s.persistentGaps;
      }
    }
  }

  lemma PublishKeepsJournal(w: World, v: World, through: nat)
    requires JournalOk(w) && through <= w.s.cursor && (Marked(w.s) ==> Marked(v.s) || through == w.s.cursor)
    requires w.s.processedCursor <= through || Marked(w.s)
    requires v.s.journal == DropProcessed(w.s.journal, through) && v.s.processedCursor == through
    requires v.s.cursor == w.s.cursor && v.maxEntries == w.maxEntries
    ensures JournalOk(v)
  {
    DropIsSuffix(w.s.journal, through, w.s.cursor, through);
  }

  lemma PassKeepsInv(w: World, changes: seq<Change>)
    requires Enabled(w, PublishPass(changes)) && Inv(w) && Guarded(w, PublishPass(changes))
    ensures Inv(Next(w, PublishPass(changes)))
  {
    var v, c := Next(w, PublishPass(changes)), w.flow.capture;
    if c.epoch == w.epoch { PublishedAccounts(w, v, c); } else { OvertakenAccounts(w, v, c); }
    PublishKeepsJournal(w, v, c.through);
  }

  /** So does a pass that was overtaken harmlessly. */
  lemma OvertakenAccounts(w: World, v: World, c: Capture)
    requires CacheOk(w) && w.s.snapshot.Some? && c.through <= w.s.processedCursor && Captured(c) && JournalOk(w)
    requires OvertakenHarmlessly(w, c)
    requires v.disk == w.disk && v.undelivered == w.undelivered && (Marked(w.s) ==> Marked(v.s))
    requires v.s.journal == DropProcessed(w.s.journal, c.through)
    requires v.s.persistentGaps == Unique(w.s.persistentGaps + Lasting(c.phase.gaps))
    ensures NoneIgnored(c.phase.files) && Accounted(v, c.phase.files, v.s.persistentGaps, c.through, [])
  {
    forall p | p in c.phase.files ensures !Ignored(p) {
      assert SeenIn(c.phase.files, p).Some?;
      assert p in w.s.snapshot.value || SeenIn(w.s.snapshot.value, p) == None;
    }
    DropIsSuffix(w.s.journal, c.through, w.s.cursor, c.through);
    hide DropProcessed, Lasting, Unique;
    forall p | Differs(c.phase.files, v.disk, p)
      ensures Excused(v, p, c.through) || GapAt(v.s.persistentGaps, p)
    {
      OvertakenPath(w, c, p);
      if GapAt(w.s.persistentGaps + c.phase.gaps, p) {
        LastingGapStays(w.s.persistentGaps, c.phase.gaps, p);
      }
    }
  }

  lemma OvertakenPath(w: World, c: Capture, p: string)
    requires CacheOk(w) && w.s.snapshot.Some? && c.through <= w.s.processedCursor && c.phase.Reading?
    requires OvertakenHarmlessly(w, c) && Differs(c.phase.files, w.disk, p)
    ensures Excused(w, p, c.through) || GapAt(w.s.persistentGaps + c.phase.gaps, p)
  {
    if SeenIn(c.phase.files, p) == SeenIn(w.s.snapshot.value, p) {
      assert Differs(w.s.snapshot.value, w.disk, p);
      if GapAt(w.s.persistentGaps, p) { MoreGaps(w.s.persistentGaps, w.s.persistentGaps + c.phase.gaps, p); }
    }
  }

  /** The gaps that cover paths outlast a publication. */
  lemma LastingGapStays(persistent: seq<Gap>, found: seq<Gap>, p: string)
    requires GapAt(persistent + found, p)
    ensures GapAt(Unique(persistent + Lasting(found)), p)
  {
    var g :| g in persistent + found && GapCovers(g, p);
    assert g in Unique(persistent + Lasting(found));
  }

  lemma EndKeepsInv(w: World)
    requires Enabled(w, PublishEnd) && Inv(w)
    ensures Inv(Next(w, PublishEnd))
  {
    var v, c := Next(w, PublishEnd), w.flow.capture;
    PublishedAccounts(w, v, c);
    PublishKeepsJournal(w, v, c.through);
  }

  lemma FirstKeepsInv(w: World, files: Files, gaps: seq<Gap>)
    requires Enabled(w, FinishFirst(files, gaps)) && Inv(w)
    ensures Inv(Next(w, FinishFirst(files, gaps)))
  {
    var v := Next(w, FinishFirst(files, gaps));
    forall p | Differs(files, w.disk, p)
      ensures Excused(v, p, 0) || GapAt(v.s.persistentGaps, p)
    {
      if p in w.flow.touched {
        assert Excused(w, p, 0);
      } else {
        var g :| g in gaps && GapCovers(g, p);
        assert g in v.s.persistentGaps;
      }
    }
  }

  lemma ReconcileKeepsInv(w: World, step: Step)
    requires step.FinishReconciliation? && Enabled(w, step) && Inv(w)
    ensures Inv(Next(w, step))
  {
    var v := Next(w, step);
    if w.s.activeCursor.Some? || w.s.cursor != w.reconciliation.through {
      GiveUpKeepsInv(w, v);
    } else {
      forall p | Differs(step.full, w.disk, p)
        ensures Excused(v, p, w.s.cursor) || GapAt(v.s.persistentGaps, p)
      {
        if GapAt(step.fullGaps, p) {
          var g :| g in step.fullGaps && GapCovers(g, p);
          assert g in v.s.persistentGaps;
        } else if w.watching {
          assert Pending(w, p);
        }
      }
      PublishKeepsJournal(w, v, w.s.cursor);
      assert CacheOk(v);
    }
  }

  /** Steps of the reconciliation flow that touch neither cache nor journal. */
  lemma GiveUpKeepsInv(w: World, v: World)
    requires Inv(w) && v.disk == w.disk && v.undelivered == w.undelivered && v.watching == w.watching
    requires v.epoch == w.epoch && v.flow == w.flow && v.maxEntries == w.maxEntries
    requires exists pending, completed, scheduled ::
               v.s == w.s.(pendingGaps := pending, completedWindows := completed, reconciliationScheduled := scheduled)
    requires ReconciliationOk(v)
    ensures Inv(v)
  {
    forall after: nat | after <= w.s.cursor ensures KeepsExcuses(w, v, after) {
    }
    FlowKept(w, v);
  }

  lemma StartReconciliationKeepsInv(w: World, step: Step)
    requires step.StartReconciliation? || step.FinishCatchingUp? || step.AbortReconciliation?
    requires Enabled(w, step) && Inv(w)
    ensures Inv(Next(w, step))
  {
    var v := Next(w, step);
    assert v.s == w.s.(pendingGaps := v.s.pendingGaps, completedWindows := v.s.completedWindows,
                       reconciliationScheduled := v.s.reconciliationScheduled);
    GiveUpKeepsInv(w, v);
  }

  lemma FlowStepKeepsInv(w: World, step: Step)
    requires step.Begin? || step.StartPass? || step.FinishBegin? || step.StartEnd?
    requires Enabled(w, step) && Inv(w)
    ensures Inv(Next(w, step))
  {
    var v := Next(w, step);
    if w.s.snapshot.Some? {
      forall after: nat ensures KeepsExcuses(w, v, after) { }
      AccountedKept(w, v, w.s.snapshot.value, w.s.persistentGaps, v.s.persistentGaps, w.s.processedCursor, []);
    }
  }

  /** The identity mark set while a capture runs only adds an excuse. */
  lemma MarkKeepsInv(w: World)
    requires Inv(w) && MayOverwriteMark(w)
    ensures Inv(w.(s := MarkReplaced(w.s, w.every)))
  {
    var v := w.(s := MarkReplaced(w.s, w.every));
    forall after: nat | after <= w.s.cursor ensures KeepsExcuses(w, v, after) { }
    FlowKept(w, v);
  }

  lemma SetCaptureKeepsInv(w: World, who: Who, d: Capture)
    requires Inv(w) && CaptureOf(w, who).Some?
    requires d.through == CaptureOf(w, who).value.through && d.from == CaptureOf(w, who).value.from && d.epoch == CaptureOf(w, who).value.epoch
    requires who.WindowFlow? ==> CaptureOk(w, d) && CandidatesVisible(d)
    ensures Inv(SetCapture(w, who, d))
  {
    SameExcuses(w, SetCapture(w, who, d));
  }

  lemma AdvanceKeepsInv(w: World, who: Who, capture: CaptureStep)
    requires Enabled(w, Advance(who, capture)) && Inv(w) && Guarded(w, Advance(who, capture))
    ensures Inv(Next(w, Advance(who, capture)))
  {
    var c := CaptureOf(w, who).value;
    var marked := if MarksReplaced(capture) then w.(s := MarkReplaced(w.s, w.every)) else w;
    if MarksReplaced(capture) { MarkKeepsInv(w); }
    var d := CaptureNext(w.s, c, capture);
    AdvanceIsSet(w, marked, who, capture, d);
    hide Next, CaptureNext;
    if who.WindowFlow? {
      AdvanceKeepsCapture(marked, c, capture);
    }
    hide CaptureOk, CandidatesVisible, Inv, CaptureEnabled;
    SetCaptureKeepsInv(marked, who, d);
  }

  lemma AdvanceIsSet(w: World, marked: World, who: Who, capture: CaptureStep, d: Capture)
    requires Enabled(w, Advance(who, capture)) && d == CaptureNext(w.s, CaptureOf(w, who).value, capture)
    requires marked == if MarksReplaced(capture) then w.(s := MarkReplaced(w.s, w.every)) else w
    ensures CaptureOf(marked, who) == CaptureOf(w, who) && d == CaptureNext(marked.s, CaptureOf(w, who).value, capture)
    ensures Next(w, Advance(who, capture)) == SetCapture(marked, who, d)
  {
  }

  /** Worlds that differ only in their flows account for the same paths. */
  lemma SameExcuses(w: World, v: World)
    requires v.disk == w.disk && v.undelivered == w.undelivered && v.s == w.s && v.epoch == w.epoch
    ensures CacheOk(w) ==> CacheOk(v)
    ensures forall c :: CaptureOk(w, c) ==> CaptureOk(v, c)
  {
    forall after: nat ensures KeepsExcuses(w, v, after) { }
    if w.s.snapshot.Some? && CacheOk(w) {
      AccountedKept(w, v, w.s.snapshot.value, w.s.persistentGaps, w.s.persistentGaps, w.s.processedCursor, []);
    }
    forall c | CaptureOk(w, c) ensures CaptureOk(v, c) {
      CaptureKept(w, v, c);
    }
  }

  /** Every guarded step keeps the invariant. */
  lemma StepKeepsInv(w: World, step: Step)
    requires Enabled(w, step) && Inv(w) && Guarded(w, step)
    ensures Inv(Next(w, step))
  {
    hide Inv, Next, Enabled, Guarded;
    match step
    case Write(disk, events) => WriteKeepsInv(w, disk, events);
    case Deliver(event) => DeliverKeepsInv(w, event);
    case Lose(_) => MarksKeepInv(w, step);
    case WatcherFails(_) => MarksKeepInv(w, step);
    case BeginOverlapping => MarksKeepInv(w, step);
    case FinishFirst(files, gaps) => FirstKeepsInv(w, files, gaps);
    case Advance(who, capture) => AdvanceKeepsInv(w, who, capture);
    case PublishPass(changes) => PassKeepsInv(w, changes);
    case PublishEnd => EndKeepsInv(w);
    case FinishReconciliation(_, _, _, _, _) => ReconcileKeepsInv(w, step);
    case StartReconciliation => StartReconciliationKeepsInv(w, step);
    case FinishCatchingUp => StartReconciliationKeepsInv(w, step);
    case AbortReconciliation(_) => StartReconciliationKeepsInv(w, step);
    case _ => FlowStepKeepsInv(w, step);
  }

  lemma {:induction false} RunKeepsInv(w: World, steps: seq<Step>)
    requires Inv(w) && Legal(w, steps) && GuardedRun(w, steps)
    ensures Inv(Execute(w, steps))
    decreases |steps|
  {
    if steps != [] {
      StepKeepsInv(w, steps[0]);
      RunKeepsInv(Next(w, steps[0]), steps[1..]);
    }
  }
}
