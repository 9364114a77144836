/**
 * Runs of the observation boundary that end with a stale cache nothing accounts for: one for each
 * guard of `ObservationSafety.Guarded`.
 */
module ObservationCounterexamples {
  import opened Options
  import opened Paths
  import opened Effects
  import opened Sessions
  import opened Observation
  import opened ObservationSafety

  /** The cache is wrong at `p` and neither events, journal, gaps nor marks say so. */
  ghost predicate Unaccounted(w: World, p: string) {
    && w.s.snapshot.Some? && Differs(w.s.snapshot.value, w.disk, p)
    && !Excused(w, p, w.s.processedCursor) && !GapAt(w.s.persistentGaps, p)
  }

  ghost predicate RunTo(start: World, steps: seq<Step>, w: World) {
    Initial(start) && Legal(start, steps) && Execute(start, steps) == w
  }

  lemma {:induction false} ExecuteMore(start: World, steps: seq<Step>, step: Step)
    requires Legal(start, steps) && Enabled(Execute(start, steps), step)
    ensures Legal(start, steps + [step])
    ensures Execute(start, steps + [step]) == Next(Execute(start, steps), step)
    decreases |steps|
  {
    if steps != [] {
      ExecuteMore(Next(start, steps[0]), steps[1..], step);
      assert (steps + [step])[1..] == steps[1..] + [step];
    } else {
      assert steps + [step] == [step];
    }
  }

  lemma Take(start: World, steps: seq<Step>, w: World, step: Step) returns (more: seq<Step>, v: World)
    requires RunTo(start, steps, w) && Enabled(w, step)
    ensures more == steps + [step] && v == Next(w, step) && RunTo(start, more, v)
  {
    ExecuteMore(start, steps, step);
    more, v := steps + [step], Next(w, step);
  }

  function Plain(hash: string): FileState {
    FileState(hash, None, RegularFile)
  }

  lemma SampleNames()
    ensures !Ignored("f") && !Ignored("d") && !Ignored("d/x")
  {
    OneSegment("f");
    OneSegment("d");
    OneSegment("x");
    assert "d" + "/" + "x" == "d/x";
    SegmentsOfJoin("d", "x");
  }

  /** A disk with the one file `f`, and the cache of it. */
  function OneFile(hash: string): Disk { map["f" := File(hash)] }

  function OneCached(hash: string): Files { map["f" := Plain(hash)] }

  lemma SightOfOneFile(cached: string, hash: string)
    ensures TreeShaped(OneFile(hash))
    ensures forall p :: Differs(OneCached(cached), OneFile(hash), p) <==> p == "f" && cached != hash
  {
    SampleNames();
  }

  /** The first window opens on an undisturbed disk. */
  lemma OpenFirst(disk: Disk, files: Files, maxEntries: nat, every: nat) returns (start: World, steps: seq<Step>, w: World)
    requires TreeShaped(disk) && WalkFinds(disk, {}, files, [])
    ensures RunTo(start, steps, w)
    ensures w == World(maxEntries, every, disk, true, multiset{},
                       NEW_SESSION.(snapshot := Some(files), activeCursor := Some(0)), 1,
                       Open(Window(0, files, [], [])), NoReconciliation, None, files)
  {
    start := World(maxEntries, every, disk, true, multiset{}, NEW_SESSION, 0, Idle, NoReconciliation, None, map[]);
    steps, w := Take(start, [], start, Begin);
    steps, w := Take(start, steps, w, FinishFirst(files, []));
    steps, w := Take(start, steps, w, FinishBegin);
  }

  /** A write of `f` with one event, delivered at once. */
  lemma WriteAndDeliver(start: World, steps: seq<Step>, w: World, was: string, hash: string)
    returns (more: seq<Step>, v: World)
    requires RunTo(start, steps, w) && w.disk == OneFile(was) && w.undelivered == multiset{}
    requires !w.flow.FirstWalk? && (CaptureOf(w, WindowFlow).Some? ==> !CaptureOf(w, WindowFlow).value.phase.Walking?)
    requires w.reconciliation.NoReconciliation?
    ensures RunTo(start, more, v)
    ensures v == w.(disk := OneFile(hash), s := OnEvent(w.s, Changed("f"), w.maxEntries))
  {
    SightOfOneFile(was, hash);
    var event := Changed("f");
    assert event in multiset{event} && Covers(event, "f");
    more, v := Take(start, steps, w, Write(OneFile(hash), multiset{event}));
    assert v.flow == w.flow;
    more, v := Take(start, more, v, Deliver(event));
    assert v.undelivered == multiset{};
  }

  lemma OneModification(left: string, right: string)
    requires left != right
    ensures IsDiff(OneCached(left), OneCached(right),
                   [Change("f", None, Some(Plain(left)), Some(Plain(right)), WasModified, false)])
  {
    var b, a := OneCached(left), OneCached(right);
    var only := Change("f", None, Some(Plain(left)), Some(Plain(right)), WasModified, false);
    assert forall d, c :: !IsRename(b, a, d, c);
    forall ch ensures ch in [only] <==> IsChange(b, a, ch) {
    }
  }

  lemma NoModification(hash: string)
    ensures IsDiff(OneCached(hash), OneCached(hash), [])
  {
  }

  // ---- Steps with their outcome spelled out ----

  lemma StartEndStep(w: World)
    requires w.flow.Open? && w.s.snapshot.Some?
    ensures Enabled(w, StartEnd)
    ensures Next(w, StartEnd) ==
            w.(flow := Ending(w.flow.window, Capture(w.flow.window.cursor, w.s.cursor, w.epoch, Identifying(w.s.snapshot.value))))
  {
  }

  /** The journal names `q` and nothing else in range. */
  ghost predicate NamesOnly(journal: seq<JournalEntry>, from: nat, through: nat, q: string) {
    && !Ignored(q) && !IsIgnoreRule(q)
    && (forall e :: e in journal ==> e.path == Changed(q))
    && (exists e :: e in journal && InRange(e, from, through))
  }

  lemma IdentifyStep(w: World, who: Who, q: string)
    requires CaptureOf(w, who).Some? && CaptureOf(w, who).value.phase.Identifying?
    requires var c := CaptureOf(w, who).value; NamesOnly(w.s.journal, c.from, c.through, q)
    ensures var c, step := CaptureOf(w, who).value, Advance(who, Identify([q], false));
            && Enabled(w, step)
            && Next(w, step) == SetCapture(w, who, c.(phase := Reading(c.phase.base, [q], [ORIGIN_GAP])))
  {
    var c := CaptureOf(w, who).value;
    var e :| e in w.s.journal && InRange(e, c.from, c.through);
    assert e.path == Changed(q);
    forall p ensures p in [q] <==> IsCandidate(w.s.journal, c.from, c.through, p) { }
    assert FirstGaps(w.s, c, false) == [ORIGIN_GAP];
  }

  lemma IdentifyNothingStep(w: World, who: Who)
    requires CaptureOf(w, who).Some? && CaptureOf(w, who).value.phase.Identifying? && w.s.journal == []
    ensures var c, step := CaptureOf(w, who).value, Advance(who, Identify([], false));
            && Enabled(w, step)
            && Next(w, step) == SetCapture(w, who, c.(phase := Reading(c.phase.base, [], [ORIGIN_GAP])))
  {
    var c := CaptureOf(w, who).value;
    assert FirstGaps(w.s, c, false) == [ORIGIN_GAP];
  }

  lemma ReadStep(w: World, who: Who, q: string, hash: string)
    requires CaptureOf(w, who).Some? && CaptureOf(w, who).value.phase.Reading?
    requires CaptureOf(w, who).value.phase.candidates == [q] && Lstat(w.disk, q) == IsFile(hash)
    ensures var c, step := CaptureOf(w, who).value, Advance(who, ReadNext(IsFile(hash), map[]));
            && Enabled(w, step)
            && Next(w, step) == SetCapture(w, who, c.(phase := Reading(c.phase.files[q := Plain(hash)], [], c.phase.gaps)))
  {
    var c := CaptureOf(w, who).value;
    assert c.phase.gaps + [] == c.phase.gaps && [q][1..] == [];
    assert ReadCandidate(c.phase.files, q, IsFile(hash), map[]) == c.phase.files[q := Plain(hash)];
  }

  /** Closing a window that has read everything the journal holds. */
  lemma CloseStep(w: World)
    requires w.flow.Ending? && Captured(w.flow.capture) && w.flow.capture.phase.gaps == [ORIGIN_GAP]
    requires w.flow.capture.through == w.s.cursor && w.s.persistentGaps == [] && w.flow.window.gaps == []
    requires forall e :: e in w.s.journal ==> e.cursor <= w.s.cursor
    ensures Enabled(w, PublishEnd)
    ensures var v := Next(w, PublishEnd);
            && v == w.(s := v.s, epoch := w.epoch + 1, flow := Idle, last := v.last, base := v.base)
            && v.s == w.s.(snapshot := Some(w.flow.capture.phase.files), journal := [], processedCursor := w.s.cursor,
                           completedWindows := w.s.completedWindows + 1, activeCursor := None,
                           reconciliationScheduled := v.s.reconciliationScheduled,
                           degraded := if w.s.degraded == Some(OVERLAP_GAP) then None else w.s.degraded)
            && (w.every == 1 ==> v.s.reconciliationScheduled)
            && v.last.Some? && v.last.value.files == w.flow.capture.phase.files
            && (w.s.degraded == None ==> v.last.value.complete)
  {
    var c := w.flow.capture;
    assert Lasting([ORIGIN_GAP]) == [] by { assert Lasting([]) == []; }
    DropAll(w.s.journal, w.s.cursor);
    CleanResult(w.s, w.flow.window, c.phase.files, c.through);
    hide DropProcessed, Lasting, ResultOf;
    assert Next(w, PublishEnd).last == Some(ResultOf(w.s, w.flow.window, c.phase.files, c.phase.gaps, c.through));
  }

  /** A window that leaves only the snapshot-origin gap on an unmarked session is complete. */
  lemma CleanResult(s: Session, window: Window, files: Files, through: nat)
    requires window.gaps == [] && through == s.cursor
    ensures ResultOf(s, window, files, [ORIGIN_GAP], through).files == files
    ensures s.degraded == None && s.persistentGaps == [] ==> ResultOf(s, window, files, [ORIGIN_GAP], through).complete
  {
    hide DropProcessed;
    assert s.degraded == None && s.persistentGaps == [] ==>
           forall g :: g in ResultOf(s, window, files, [ORIGIN_GAP], through).gaps ==> g == ORIGIN_GAP;
  }

  lemma {:induction false} DropAll(journal: seq<JournalEntry>, processed: nat)
    requires forall e :: e in journal ==> e.cursor <= processed
    ensures DropProcessed(journal, processed) == []
  {
    if journal != [] {
      assert journal[0] in journal;
      DropAll(journal[1..], processed);
    }
  }

  /** A directory replaced by a plain file, reported only at the directory: its cached files stay, and the window is complete. */
  lemma ShadowedFilesStay() returns (start: World, steps: seq<Step>, w: World)
    ensures RunTo(start, steps, w) && Unaccounted(w, "d/x")
    ensures w.last.Some? && w.last.value.complete && "d/x" in w.last.value.files && "d/x" !in w.disk
  {
    hide Next, Enabled, RunTo;
    SampleNames();
    var disk: Disk := map["d" := Dir, "d/x" := File("1")];
    var files: Files := map["d/x" := Plain("1")];
    DirectoryAndFile(disk);
    start, steps, w := OpenFirst(disk, files, 10, 100);
    steps, w := ReplaceDirectory(start, steps, w);
    steps, w := ReadReplaced(start, steps, w);
    CloseStep(w);
    steps, w := Take(start, steps, w, PublishEnd);
    assert "d/x" in w.s.snapshot.value;
  }

  /** `endWindow` reads the one journalled path, which is a plain file now. */
  lemma ReadReplaced(start: World, steps: seq<Step>, w: World) returns (more: seq<Step>, v: World)
    requires RunTo(start, steps, w) && w.flow.Open? && w.s.snapshot.Some? && w.flow.window.cursor == 0
    requires w.s.cursor == 1 && w.s.journal == [JournalEntry(1, Changed("d"))]
    requires Lstat(w.disk, "d") == IsFile("2") && !IsIgnoreRule("d") && !Ignored("d")
    ensures RunTo(start, more, v)
    ensures v == w.(flow := Ending(w.flow.window, Capture(0, 1, w.epoch, Reading(w.s.snapshot.value["d" := Plain("2")], [], [ORIGIN_GAP]))))
  {
    hide Next, Enabled, RunTo, Lstat, Ignored, IsIgnoreRule;
    StartEndStep(w);
    more, v := Take(start, steps, w, StartEnd);
    assert v.s.journal[0] in v.s.journal && InRange(v.s.journal[0], 0, 1);
    IdentifyStep(v, WindowFlow, "d");
    more, v := Take(start, more, v, Advance(WindowFlow, Identify(["d"], false)));
    ReadStep(v, WindowFlow, "d", "2");
    more, v := Take(start, more, v, Advance(WindowFlow, ReadNext(IsFile("2"), map[])));
  }

  lemma ReplaceDirectory(start: World, steps: seq<Step>, w: World) returns (more: seq<Step>, v: World)
    requires RunTo(start, steps, w) && w.disk == map["d" := Dir, "d/x" := File("1")] && w.undelivered == multiset{}
    requires w.flow.Open? && w.reconciliation.NoReconciliation? && w.s.journal == [] && w.s.cursor == 0 && w.maxEntries == 10
    ensures RunTo(start, more, v)
    ensures v == w.(disk := map["d" := File("2")], s := w.s.(cursor := 1, journal := [JournalEntry(1, Changed("d"))]))
    ensures Lstat(v.disk, "d") == IsFile("2") && !IsIgnoreRule("d")
  {
    var event := Changed("d");
    var after: Disk := map["d" := File("2")];
    JustAFile(after);
    assert event in multiset{event} && Covers(event, "d") && Covers(event, "d/x") by {
      assert "d" + "/" == "d/";
    }
    more, v := Take(start, steps, w, Write(after, multiset{event}));
    assert v.undelivered == multiset{event};
    more, v := Take(start, more, v, Deliver(event));
    assert v.undelivered == multiset{};
  }

  lemma DirectoryAndFile(disk: Disk)
    requires disk == map["d" := Dir, "d/x" := File("1")]
    ensures TreeShaped(disk)
  {
    forall p, q | p in disk && q + "/" <= p
      ensures q in disk && disk[q].Dir?
    {
      assert p[|q|] == '/';
      assert p == "d/x" && |q| == 1;
      assert (q + "/")[0] == p[0];
      assert q == "d";
    }
  }

  lemma JustAFile(disk: Disk)
    requires disk == map["d" := File("2")]
    ensures TreeShaped(disk) && Lstat(disk, "d") == IsFile("2") && !IsIgnoreRule("d")
  {
    assert forall q: string :: q + "/" <= "d" ==> (q + "/")[|q|] == "d"[|q|];
  }

  lemma FileAtF(hash: string)
    ensures Lstat(OneFile(hash), "f") == IsFile(hash) && !IsIgnoreRule("f")
  {
    assert forall q: string :: q + "/" <= "f" ==> (q + "/")[|q|] == "f"[|q|];
  }

  /** Writes `f` without the watcher noticing, once it has died. */
  lemma SilentWrite(start: World, steps: seq<Step>, w: World, was: string, hash: string) returns (more: seq<Step>, v: World)
    requires RunTo(start, steps, w) && w.disk == OneFile(was) && !w.watching
    requires (w.flow.Open? || w.flow.Idle?) && w.reconciliation.NoReconciliation?
    ensures RunTo(start, more, v) && v == w.(disk := OneFile(hash))
  {
    SightOfOneFile(was, hash);
    more, v := Take(start, steps, w, Write(OneFile(hash), multiset{}));
    assert v.undelivered == w.undelivered;
  }

  /** Closes an open window whose journal is empty: nothing is read. */
  lemma CloseUnread(start: World, steps: seq<Step>, w: World) returns (more: seq<Step>, v: World)
    requires RunTo(start, steps, w) && w.flow.Open? && w.s.snapshot.Some? && w.s.journal == []
    requires w.s.persistentGaps == [] && w.flow.window.gaps == []
    ensures RunTo(start, more, v)
    ensures v == w.(s := v.s, epoch := w.epoch + 1, flow := Idle, last := v.last, base := v.base)
    ensures v.s == w.s.(processedCursor := w.s.cursor, completedWindows := w.s.completedWindows + 1, activeCursor := None,
                        reconciliationScheduled := v.s.reconciliationScheduled,
                        degraded := if w.s.degraded == Some(OVERLAP_GAP) then None else w.s.degraded)
    ensures w.every == 1 ==> v.s.reconciliationScheduled
  {
    hide Next, Enabled, RunTo;
    StartEndStep(w);
    more, v := Take(start, steps, w, StartEnd);
    IdentifyNothingStep(v, WindowFlow);
    more, v := Take(start, more, v, Advance(WindowFlow, Identify([], false)));
    CloseStep(v);
    more, v := Take(start, more, v, PublishEnd);
  }

  /** With room for one entry the event at `g`, delivered second, displaces the one at `f`. */
  lemma Displaced(start: World, steps: seq<Step>, w: World) returns (more: seq<Step>, v: World)
    requires RunTo(start, steps, w) && w.undelivered == multiset{Changed("f"), Changed("g")}
    requires w.maxEntries == 1 && w.s.journal == [] && w.s.cursor == 0
    ensures RunTo(start, more, v)
    ensures v == w.(undelivered := multiset{},
                    s := w.s.(cursor := 2, journal := [JournalEntry(2, Changed("g"))], degraded := Some(OVERFLOW_GAP)))
  {
    more, v := Take(start, steps, w, Deliver(Changed("f")));
    assert v.undelivered == multiset{Changed("g")} && v.s.journal == [JournalEntry(1, Changed("f"))];
    more, v := Take(start, more, v, Deliver(Changed("g")));
    assert v.undelivered == multiset{};
    assert v.s.journal == [JournalEntry(2, Changed("g"))];
  }

  lemma MissingStep(w: World, q: string)
    requires CaptureOf(w, WindowFlow).Some? && CaptureOf(w, WindowFlow).value.phase.Reading?
    requires CaptureOf(w, WindowFlow).value.phase.candidates == [q] && Lstat(w.disk, q) == NotFound
    requires Without(CaptureOf(w, WindowFlow).value.phase.files, q) == CaptureOf(w, WindowFlow).value.phase.files
    ensures var c, step := CaptureOf(w, WindowFlow).value, Advance(WindowFlow, ReadNext(NotFound, map[]));
            && Enabled(w, step)
            && Next(w, step) == SetCapture(w, WindowFlow, c.(phase := Reading(c.phase.files, [], c.phase.gaps)))
  {
    var c := CaptureOf(w, WindowFlow).value;
    assert c.phase.gaps + [] == c.phase.gaps && [q][1..] == [];
  }

  lemma NothingAtG(hash: string)
    ensures Lstat(OneFile(hash), "g") == NotFound && Without(OneCached(hash), "g") == OneCached(hash)
    ensures !Ignored("g") && !IsIgnoreRule("g")
  {
    OneSegment("g");
  }

  /** Closes an open window whose journal names only `g`, where nothing is. */
  lemma CloseMissing(start: World, steps: seq<Step>, w: World, hash: string) returns (more: seq<Step>, v: World)
    requires RunTo(start, steps, w) && w.flow.Open? && w.flow.window.cursor == 0 && w.disk == OneFile(hash)
    requires w.s.snapshot == Some(OneCached("1")) && w.s.journal == [JournalEntry(2, Changed("g"))] && w.s.cursor == 2
    requires w.s.persistentGaps == [] && w.flow.window.gaps == []
    ensures RunTo(start, more, v)
    ensures v == w.(s := v.s, epoch := w.epoch + 1, flow := Idle, last := v.last, base := v.base)
    ensures v.s == w.s.(journal := [], processedCursor := 2, completedWindows := w.s.completedWindows + 1, activeCursor := None,
                        reconciliationScheduled := v.s.reconciliationScheduled,
                        degraded := if w.s.degraded == Some(OVERLAP_GAP) then None else w.s.degraded)
    ensures w.every == 1 ==> v.s.reconciliationScheduled
  {
    hide Next, Enabled, RunTo, Lstat, Ignored, IsIgnoreRule, Without;
    NothingAtG(hash);
    NothingAtG("1");
    StartEndStep(w);
    more, v := Take(start, steps, w, StartEnd);
    assert v.s.journal[0] in v.s.journal && InRange(v.s.journal[0], 0, 2);
    IdentifyStep(v, WindowFlow, "g");
    more, v := Take(start, more, v, Advance(WindowFlow, Identify(["g"], false)));
    MissingStep(v, "g");
    more, v := Take(start, more, v, Advance(WindowFlow, ReadNext(NotFound, map[])));
    CloseStep(v);
    more, v := Take(start, more, v, PublishEnd);
  }

  /** Writes `f`; an event at `g`, say of a file that came and went, follows. */
  lemma WriteWithTwoEvents(start: World, steps: seq<Step>, w: World) returns (more: seq<Step>, v: World)
    requires RunTo(start, steps, w) && w.disk == OneFile("1") && w.watching && w.undelivered == multiset{}
    requires w.flow.Open? && w.reconciliation.NoReconciliation?
    ensures RunTo(start, more, v) && v == w.(disk := OneFile("2"), undelivered := multiset{Changed("f"), Changed("g")})
  {
    SightOfOneFile("1", "2");
    var events := multiset{Changed("f"), Changed("g")};
    assert Changed("f") in events && Covers(Changed("f"), "f");
    more, v := Take(start, steps, w, Write(OneFile("2"), events));
    assert v.undelivered == events;
  }

  /** An overlapping begin overwrites an overflow mark, and closing the window clears it. */
  lemma OverlapErasesOverflow() returns (start: World, steps: seq<Step>, w: World)
    ensures RunTo(start, steps, w) && Unaccounted(w, "f") && w.maxEntries == 1
  {
    hide Next, Enabled, RunTo;
    SightOfOneFile("1", "1");
    start, steps, w := OpenFirst(OneFile("1"), OneCached("1"), 1, 100);
    steps, w := WriteWithTwoEvents(start, steps, w);
    steps, w := Displaced(start, steps, w);
    assert Enabled(w, BeginOverlapping) && Next(w, BeginOverlapping) == w.(s := OverlapBegin(w.s)) by {
      OverlapStep(w);
    }
    steps, w := Take(start, steps, w, BeginOverlapping);
    steps, w := CloseMissing(start, steps, w, "2");
    SightOfOneFile("1", "2");
  }

  lemma OverlapStep(w: World)
    requires w.s.activeCursor.Some?
    ensures Enabled(w, BeginOverlapping) && Next(w, BeginOverlapping) == w.(s := OverlapBegin(w.s))
  {
  }

  /** Dying with events in flight: their overflow overwrites the mark that the watcher is gone. */
  lemma DieThenOverflow(start: World, steps: seq<Step>, w: World) returns (more: seq<Step>, v: World)
    requires RunTo(start, steps, w) && w.disk == OneFile("1") && w.watching && w.undelivered == multiset{}
    requires w.flow.Open? && w.reconciliation.NoReconciliation? && w.maxEntries == 1 && w.s.journal == [] && w.s.cursor == 0
    ensures RunTo(start, more, v)
    ensures v == w.(disk := OneFile("2"), watching := false,
                    s := w.s.(cursor := 2, journal := [JournalEntry(2, Changed("g"))], degraded := Some(OVERFLOW_GAP)))
  {
    more, v := WriteWithTwoEvents(start, steps, w);
    more, v := Take(start, more, v, WatcherFails(true));
    more, v := Displaced(start, more, v);
  }

  /** A reconciliation that starts with nothing to catch up on and finds what the cache holds. */
  lemma ReconcileUnchanged(start: World, steps: seq<Step>, w: World) returns (more: seq<Step>, v: World)
    requires RunTo(start, steps, w) && w.disk == OneFile("1") && w.flow.Idle? && w.reconciliation.NoReconciliation?
    requires w.s.snapshot == Some(OneCached("1")) && w.s.activeCursor == None && w.s.reconciliationScheduled
    requires w.s.cursor == w.s.processedCursor && w.s.journal == [] && w.s.degraded == Some(OVERFLOW_GAP)
    ensures RunTo(start, more, v)
    ensures v.disk == w.disk && v.watching == w.watching && v.undelivered == w.undelivered && v.flow == w.flow && v.maxEntries == w.maxEntries
    ensures v.reconciliation.NoReconciliation? && v.s.snapshot == w.s.snapshot && v.s.journal == []
    ensures v.s.persistentGaps == [] && v.s.degraded == None
  {
    SightOfOneFile("1", "1");
    NoModification("1");
    more, v := Take(start, steps, w, StartReconciliation);
    assert v.reconciliation == FullWalk(OneCached("1"), w.epoch, w.s.cursor, OneCached("1"), {});
    more, v := Take(start, more, v, FinishReconciliation(OneCached("1"), [], [], true, false));
  }

  /** The watcher is dead, its mark overwritten and then healed: later writes leave no trace. */
  lemma HealedDeadWatcher() returns (start: World, steps: seq<Step>, w: World)
    ensures RunTo(start, steps, w) && Unaccounted(w, "f") && !w.watching && w.maxEntries == 1
  {
    hide Next, Enabled, RunTo;
    SightOfOneFile("1", "1");
    start, steps, w := OpenFirst(OneFile("1"), OneCached("1"), 1, 1);
    steps, w := DieThenOverflow(start, steps, w);
    steps, w := SilentWrite(start, steps, w, "2", "1");
    steps, w := CloseMissing(start, steps, w, "1");
    steps, w := ReconcileUnchanged(start, steps, w);
    steps, w := SilentWrite(start, steps, w, "1", "2");
    SightOfOneFile("1", "2");
  }

  // ---- A drain pass publishing after a reconciliation ----

  /** A begun window drains the one journalled path and has read it, but not yet published. */
  lemma PassReadsF(start: World, steps: seq<Step>, w: World) returns (more: seq<Step>, v: World)
    requires RunTo(start, steps, w) && w.disk == OneFile("2") && w.flow.Idle?
    requires w.s.snapshot == Some(OneCached("1")) && w.s.cursor == 1 && w.s.processedCursor == 0
    requires w.s.journal == [JournalEntry(1, Changed("f"))]
    ensures RunTo(start, more, v)
    ensures v == w.(flow := Draining(0, OneCached("1"), Capture(0, 1, w.epoch, Reading(OneCached("2"), [], [ORIGIN_GAP]))))
  {
    hide Next, Enabled, RunTo;
    SampleNames();
    FileAtF("2");
    BeginStep(w);
    more, v := Take(start, steps, w, Begin);
    StartPassStep(v);
    more, v := Take(start, more, v, StartPass);
    assert v.s.journal[0] in v.s.journal && InRange(v.s.journal[0], 0, 1);
    IdentifyStep(v, WindowFlow, "f");
    more, v := Take(start, more, v, Advance(WindowFlow, Identify(["f"], false)));
    ReadStep(v, WindowFlow, "f", "2");
    more, v := Take(start, more, v, Advance(WindowFlow, ReadNext(IsFile("2"), map[])));
    assert OneCached("1")["f" := Plain("2")] == OneCached("2");
  }

  /** The next window's drain has read `f` as "2" when "3" is written and delivered. */
  lemma DrainReadsSecond(start: World, steps: seq<Step>, w: World) returns (more: seq<Step>, v: World)
    requires RunTo(start, steps, w) && w.disk == OneFile("1") && w.flow.Idle? && w.reconciliation.NoReconciliation?
    requires w.s.snapshot == Some(OneCached("1")) && w.s.cursor == 0 && w.s.processedCursor == 0 && w.s.journal == []
    requires w.undelivered == multiset{} && w.maxEntries == 10
    ensures RunTo(start, more, v)
    ensures v == w.(disk := OneFile("3"), flow := v.flow,
                    s := w.s.(cursor := 2, journal := [JournalEntry(1, Changed("f")), JournalEntry(2, Changed("f"))]))
    ensures v.flow == Draining(0, OneCached("1"), Capture(0, 1, w.epoch, Reading(OneCached("2"), [], [ORIGIN_GAP])))
  {
    hide Next, Enabled, RunTo;
    SampleNames();
    FileAtF("2");
    more, v := WriteAndDeliver(start, steps, w, "1", "2");
    more, v := PassReadsF(start, more, v);
    more, v := WriteAndDeliver(start, more, v, "2", "3");
  }

  lemma BeginStep(w: World)
    requires w.flow.Idle? && w.s.snapshot.Some?
    ensures Enabled(w, Begin) && Next(w, Begin) == w.(flow := BetweenPasses(0))
  {
  }

  lemma StartPassStep(w: World)
    requires w.flow == BetweenPasses(0) && w.s.snapshot.Some? && w.s.cursor > w.s.processedCursor
    ensures Enabled(w, StartPass)
    ensures Next(w, StartPass) ==
            w.(flow := Draining(0, w.s.snapshot.value,
                                Capture(w.s.processedCursor, w.s.cursor, w.epoch, Identifying(w.s.snapshot.value))))
  {
  }

  /** While that pass is in progress a reconciliation reads "3" and publishes it. */
  lemma ReconcileThird(start: World, steps: seq<Step>, w: World) returns (more: seq<Step>, v: World)
    requires RunTo(start, steps, w) && w.disk == OneFile("3") && w.flow.Draining? && w.reconciliation.NoReconciliation?
    requires w.s.snapshot == Some(OneCached("1")) && w.s.activeCursor == None && w.s.reconciliationScheduled
    requires w.s.cursor == 2 && w.s.processedCursor == 0 && w.s.degraded == None
    requires w.s.journal == [JournalEntry(1, Changed("f")), JournalEntry(2, Changed("f"))]
    ensures RunTo(start, more, v)
    ensures v.disk == w.disk && v.flow == w.flow && v.undelivered == w.undelivered && v.watching == w.watching
    ensures v.s.journal == [] && v.s.cursor == 2 && v.s.persistentGaps == [] && v.s.degraded == None
    ensures v.epoch == w.epoch + 1
  {
    hide Next, Enabled, RunTo, Lstat, Ignored, IsIgnoreRule, Segments;
    SampleNames();
    FileAtF("3");
    CatchUpStep(w);
    more, v := Take(start, steps, w, StartReconciliation);
    assert v.s.journal[0] in v.s.journal && InRange(v.s.journal[0], 0, 2);
    IdentifyStep(v, ReconciliationFlow, "f");
    more, v := Take(start, more, v, Advance(ReconciliationFlow, Identify(["f"], false)));
    ReadStep(v, ReconciliationFlow, "f", "3");
    more, v := Take(start, more, v, Advance(ReconciliationFlow, ReadNext(IsFile("3"), map[])));
    assert OneCached("1")["f" := Plain("3")] == OneCached("3");
    CaughtUpStep(v);
    more, v := Take(start, more, v, FinishCatchingUp);
    FullStep(v);
    more, v := Take(start, more, v, FinishReconciliation(OneCached("3"), [], ModifiedF("1", "3"), true, false));
  }

  function ModifiedF(left: string, right: string): seq<Change> {
    [Change("f", None, Some(Plain(left)), Some(Plain(right)), WasModified, false)]
  }

  lemma CatchUpStep(w: World)
    requires w.s.reconciliationScheduled && w.reconciliation.NoReconciliation? && w.s.snapshot.Some?
    requires w.s.activeCursor == None && w.s.cursor > w.s.processedCursor
    ensures Enabled(w, StartReconciliation)
    ensures Next(w, StartReconciliation) ==
            w.(reconciliation := CatchingUp(w.s.snapshot.value,
                                            Capture(w.s.processedCursor, w.s.cursor, w.epoch, Identifying(w.s.snapshot.value))))
  {
  }

  lemma CaughtUpStep(w: World)
    requires w.reconciliation.CatchingUp? && Captured(w.reconciliation.capture)
    ensures Enabled(w, FinishCatchingUp)
    ensures var c := w.reconciliation.capture;
            Next(w, FinishCatchingUp) == w.(reconciliation := FullWalk(w.reconciliation.previous, c.epoch, c.through, c.phase.files, {}))
  {
  }

  lemma FullStep(w: World)
    requires w.disk == OneFile("3") && w.reconciliation == FullWalk(OneCached("1"), w.epoch, 2, OneCached("3"), {})
    requires w.s.activeCursor == None && w.s.cursor == 2 && w.s.degraded == None
    requires w.s.journal == [JournalEntry(1, Changed("f")), JournalEntry(2, Changed("f"))]
    ensures var step := FinishReconciliation(OneCached("3"), [], ModifiedF("1", "3"), true, false);
            && Enabled(w, step)
            && var v := Next(w, step);
               && v.disk == w.disk && v.flow == w.flow && v.undelivered == w.undelivered && v.watching == w.watching
               && v.s.journal == [] && v.s.cursor == 2 && v.s.persistentGaps == [] && v.s.degraded == None
               && v.epoch == w.epoch + 1
  {
    SightOfOneFile("3", "3");
    OneModification("1", "3");
    DropAll(w.s.journal, 2);
  }

  /** The drain pass then publishes "2" over it; its journal entries are gone and nothing records the loss. */
  lemma PassOverReconciliation() returns (start: World, steps: seq<Step>, w: World)
    ensures RunTo(start, steps, w) && Unaccounted(w, "f") && w.watching
  {
    hide Next, Enabled, RunTo;
    SightOfOneFile("1", "1");
    start, steps, w := OpenFirst(OneFile("1"), OneCached("1"), 10, 1);
    steps, w := CloseUnread(start, steps, w);
    steps, w := DrainReadsSecond(start, steps, w);
    steps, w := ReconcileThird(start, steps, w);
    PassStep(w);
    steps, w := Take(start, steps, w, PublishPass(ModifiedF("1", "2")));
    SightOfOneFile("2", "3");
  }

  lemma PassStep(w: World)
    requires w.flow.Draining? && w.flow.previous == OneCached("1") && w.s.journal == [] && w.s.persistentGaps == []
    requires w.flow.capture.phase == Reading(OneCached("2"), [], [ORIGIN_GAP])
    ensures var step := PublishPass(ModifiedF("1", "2"));
            && Enabled(w, step)
            && var v := Next(w, step);
               && v.disk == w.disk && v.undelivered == w.undelivered && v.watching == w.watching
               && v.s.journal == [] && v.s.persistentGaps == [] && v.s.degraded == w.s.degraded
               && v.s.snapshot == Some(OneCached("2"))
  {
    OneModification("1", "2");
    assert Lasting([ORIGIN_GAP]) == [] by { assert Lasting([]) == []; }
  }
}
