/**
 * The observation boundary as a state machine: one workspace, its watcher, one session, the window
 * flow and the periodic reconciliation, interleaved at every await with disk writes and with
 * watcher events that are delivered in any order and as late as they like.
 */
module Observation {
  import opened Options
  import opened Paths
  import opened Effects
  import opened Sessions

  // ---- The disk ----

  datatype Entry = File(hash: string) | Link(target: string, escapes: bool) | Dir | Special

  type Disk = map<string, Entry>

  /** Only directories have anything below them. */
  ghost predicate TreeShaped(disk: Disk) {
    forall p, q :: p in disk && q + "/" <= p ==> q in disk && disk[q].Dir?
  }

  /** What a snapshot records about a path: content identity and kind, not the Git blob name. */
  datatype Sight = Sight(hash: string, kind: FileKind)

  function SeenIn(files: Files, p: string): Option<Sight> {
    if p in files then Some(Sight(files[p].contentHash, files[p].kind)) else None
  }

  /** What a full capture records for a path of this disk. */
  function Observed(disk: Disk, p: string): Option<Sight> {
    if p !in disk then None
    else match disk[p]
      case File(hash) => Some(Sight(hash, RegularFile))
      case Link(target, escapes) => if escapes then None else Some(Sight("symlink:" + target, Symlink))
      case Dir => None
      case Special => None
  }

  ghost predicate Differs(files: Files, disk: Disk, p: string) {
    !Ignored(p) && SeenIn(files, p) != Observed(disk, p)
  }

  /** `lstat` and `hasSymlinkAncestor` on this disk. */
  ghost function Lstat(disk: Disk, q: string): Lookup {
    if exists a :: a in disk && a + "/" <= q && disk[a].Link? then BelowSymlink
    else if q in disk then
      match disk[q]
      case File(hash) => IsFile(hash)
      case Link(_, _) => IsSymlink
      case Dir => IsDirectory
      case Special => IsSpecial
    else if exists a :: a in disk && a + "/" <= q && !disk[a].Dir? then Unreadable
    else NotFound
  }

  // ---- Captures in progress ----

  /**
   * `captureIncremental` between two awaits: waiting for the workspace identity, reading
   * candidates, or (an ignore rule changed) walking the whole tree while `touched` changes under it.
   */
  datatype Phase =
    | Identifying(base: Files)
    | Reading(files: Files, candidates: seq<string>, gaps: seq<Gap>)
    | Walking(touched: set<string>)

  /** `epoch` names the snapshot the capture started from: it counts snapshot publications. */
  datatype Capture = Capture(from: nat, through: nat, epoch: nat, phase: Phase)

  /** The window flow: `beginWindow`'s first capture and drain passes, the open window, `endWindow`'s capture. */
  datatype Flow =
    | Idle
    | FirstWalk(touched: set<string>)
    | BetweenPasses(passes: nat)
    | Draining(passes: nat, previous: Files, capture: Capture)
    | Open(window: Window)
    | Ending(window: Window, capture: Capture)

  /** The work `scheduleFullReconciliation` queues: its incremental capture, then its full one. */
  datatype Reconciliation =
    | NoReconciliation
    | CatchingUp(previous: Files, capture: Capture)
    | FullWalk(previous: Files, epoch: nat, through: nat, incremental: Files, touched: set<string>)

  datatype World = World(
    maxEntries: nat,
    every: nat,
    disk: Disk,
    watching: bool,
    undelivered: multiset<WatchPath>,
    s: Session,
    epoch: nat,
    flow: Flow,
    reconciliation: Reconciliation,
    last: Option<WindowResult>,
    base: Files)

  ghost predicate Initial(w: World) {
    && TreeShaped(w.disk) && w.watching && w.undelivered == multiset{} && w.s == NEW_SESSION
    && w.epoch == 0 && w.flow == Idle && w.reconciliation == NoReconciliation && w.last == None && w.base == map[]
  }

  // ---- Steps ----

  /** One resumption of a capture. */
  datatype CaptureStep =
    | Identify(candidates: seq<string>, replaced: bool)
    | ReadNext(seen: Lookup, scanned: Files)
    | NoteGap(gap: Gap)
    | FindReplaced
    | FinishWalk(walked: Files, gaps: seq<Gap>)

  datatype Who = WindowFlow | ReconciliationFlow

  datatype Step =
    | Write(disk: Disk, events: multiset<WatchPath>)
    | Deliver(event: WatchPath)
    | Lose(event: WatchPath)
    | WatcherFails(dead: bool)
    | Begin
    | BeginOverlapping
    | FinishFirst(first: Files, firstGaps: seq<Gap>)
    | StartPass
    | Advance(who: Who, capture: CaptureStep)
    | PublishPass(changes: seq<Change>)
    | FinishBegin
    | StartEnd
    | PublishEnd
    | StartReconciliation
    | FinishCatchingUp
    | FinishReconciliation(full: Files, fullGaps: seq<Gap>, difference: seq<Change>, same: bool, replaced: bool)
    | AbortReconciliation(reason: Gap)

  predicate Covers(e: WatchPath, p: string) {
    !e.Changed? || Under(e.path, p)
  }

  function Touched(before: Disk, after: Disk): set<string> {
    set p | p in before.Keys + after.Keys && Observed(before, p) != Observed(after, p)
  }

  /** A walk sees every path nothing touched since it began, or leaves a gap that covers it. */
  ghost predicate WalkFinds(disk: Disk, touched: set<string>, files: Files, gaps: seq<Gap>) {
    && (forall p :: p in files ==> !Ignored(p))
    && (forall p :: Differs(files, disk, p) ==> p in touched || GapAt(gaps, p))
  }

  predicate GapCovers(g: Gap, p: string) {
    g.scope.Filesystem? || g.scope.Workspace? || (g.scope.AtPath? && Under(g.scope.path, p))
  }

  ghost predicate GapAt(gaps: seq<Gap>, p: string) {
    exists g :: g in gaps && GapCovers(g, p)
  }

  function CaptureOf(w: World, who: Who): Option<Capture> {
    match who
    case WindowFlow => if w.flow.Draining? || w.flow.Ending? then Some(w.flow.capture) else None
    case ReconciliationFlow => if w.reconciliation.CatchingUp? then Some(w.reconciliation.capture) else None
  }

  function SetCapture(w: World, who: Who, c: Capture): World
    requires CaptureOf(w, who).Some?
  {
    match who
    case WindowFlow => w.(flow := w.flow.(capture := c))
    case ReconciliationFlow => w.(reconciliation := w.reconciliation.(capture := c))
  }

  /** The gaps `captureIncremental` has after reading the journal. */
  function FirstGaps(s: Session, c: Capture, replaced: bool): seq<Gap> {
    [ORIGIN_GAP] + (if replaced then [ROOT_GAP] else [])
    + if NamesNoPath(s.journal, c.from, c.through) then [NO_PATH_GAP] else []
  }

  ghost predicate CaptureEnabled(w: World, c: Capture, step: CaptureStep) {
    match step
    case Identify(candidates, _) => c.phase.Identifying? && IsCandidateList(w.s.journal, c.from, c.through, candidates)
    case ReadNext(seen, scanned) =>
      && c.phase.Reading? && c.phase.candidates != []
      && var q := c.phase.candidates[0];
      && (seen == Lstat(w.disk, q) || seen.Unreadable? || (seen.AlreadyHashed? && GapAt(c.phase.gaps, q)))
      && (seen.IsDirectory? ==> ScanOf(c.phase.files, q, scanned))
    case NoteGap(_) => c.phase.Reading?
    case FindReplaced => c.phase.Reading?
    case FinishWalk(walked, gaps) => c.phase.Walking? && WalkFinds(w.disk, c.phase.touched, walked, gaps)
  }

  /** A directory scan decides nothing outside the directory. */
  ghost predicate ScanOf(files: Files, q: string, scanned: Files) {
    && (forall p :: p in scanned ==> !Ignored(p))
    && (forall p :: !(q + "/" <= p) ==> SeenIn(scanned, p) == SeenIn(files, p))
  }

  function CaptureNext(s: Session, c: Capture, step: CaptureStep): (next: Capture)
    requires step.ReadNext? ==> c.phase.Reading? && c.phase.candidates != []
    requires step.NoteGap? || step.FindReplaced? ==> c.phase.Reading?
    requires step.Identify? ==> c.phase.Identifying?
    ensures next.from == c.from && next.through == c.through && next.epoch == c.epoch
  {
    match step
    case Identify(candidates, replaced) =>
      if ChangesIgnoreRules(s.journal, c.from, c.through) then c.(phase := Walking({}))
      else c.(phase := Reading(c.phase.base, candidates, FirstGaps(s, c, replaced)))
    case ReadNext(seen, scanned) =>
      var q := c.phase.candidates[0];
      c.(phase := Reading(ReadCandidate(c.phase.files, q, seen, scanned), c.phase.candidates[1..],
                          c.phase.gaps + CandidateGaps(q, seen)))
    case NoteGap(gap) => c.(phase := c.phase.(gaps := c.phase.gaps + [gap]))
    case FindReplaced => c.(phase := c.phase.(gaps := c.phase.gaps + [ROOT_GAP]))
    case FinishWalk(walked, gaps) => c.(phase := Reading(walked, [], gaps + [ORIGIN_GAP]))
  }

  predicate MarksReplaced(step: CaptureStep) {
    step.FindReplaced? || (step.Identify? && step.replaced)
  }

  /** `completedWindows` is set so that the next window schedules a reconciliation. */
  function MarkReplaced(s: Session, every: nat): Session {
    s.(degraded := Some(ROOT_GAP), completedWindows := if every == 0 then 0 else every - 1)
  }

  predicate Captured(c: Capture) {
    c.phase.Reading? && c.phase.candidates == []
  }

  ghost predicate Enabled(w: World, step: Step) {
    match step
    case Write(disk, events) =>
      && TreeShaped(disk)
      && (w.watching ==> forall p :: p in Touched(w.disk, disk) && !Ignored(p) ==> exists e :: e in events && Covers(e, p))
    case Deliver(event) => event in w.undelivered
    case Lose(event) => event in w.undelivered && !w.watching
    case WatcherFails(_) => true
    case Begin => w.flow.Idle?
    case BeginOverlapping => w.s.activeCursor.Some?
    case FinishFirst(files, gaps) => w.flow.FirstWalk? && WalkFinds(w.disk, w.flow.touched, files, gaps)
    case StartPass => w.flow.BetweenPasses? && w.flow.passes < 8 && w.s.cursor > w.s.processedCursor && w.s.snapshot.Some?
    case Advance(who, capture) => CaptureOf(w, who).Some? && CaptureEnabled(w, CaptureOf(w, who).value, capture)
    case PublishPass(changes) =>
      && w.flow.Draining? && Captured(w.flow.capture)
      && IsDiff(w.flow.previous, w.flow.capture.phase.files, changes)
    case FinishBegin => w.flow.BetweenPasses? && (w.flow.passes == 8 || w.s.cursor <= w.s.processedCursor) && w.s.snapshot.Some?
    case StartEnd => w.flow.Open? && w.s.snapshot.Some?
    case PublishEnd => w.flow.Ending? && Captured(w.flow.capture)
    case StartReconciliation => w.s.reconciliationScheduled && w.reconciliation.NoReconciliation? && w.s.snapshot.Some?
    case FinishCatchingUp => w.reconciliation.CatchingUp? && Captured(w.reconciliation.capture)
    case FinishReconciliation(full, gaps, difference, same, _) =>
      && w.reconciliation.FullWalk? && WalkFinds(w.disk, w.reconciliation.touched, full, gaps)
      && (same ==> SameFiles(w.reconciliation.incremental, full))
      && IsDiff(w.reconciliation.previous, full, difference)
    case AbortReconciliation(reason) =>
      !w.reconciliation.NoReconciliation? && (reason == ROOT_GAP || reason == Gap(ReconciliationMismatch, Filesystem))
  }

  function Touch(flow: Flow, touched: set<string>): Flow {
    match flow
    case FirstWalk(t) => FirstWalk(t + touched)
    case Draining(passes, previous, c) => Draining(passes, previous, TouchCapture(c, touched))
    case Ending(window, c) => Ending(window, TouchCapture(c, touched))
    case _ => flow
  }

  function TouchCapture(c: Capture, touched: set<string>): Capture {
    if c.phase.Walking? then c.(phase := Walking(c.phase.touched + touched)) else c
  }

  function TouchReconciliation(r: Reconciliation, touched: set<string>): Reconciliation {
    match r
    case CatchingUp(_, c) => r.(capture := TouchCapture(c, touched))
    case FullWalk(_, _, _, _, t) => r.(touched := t + touched)
    case NoReconciliation => r
  }

  const MOVED_GAP := Gap(Unverified, Filesystem)

  ghost function Next(w: World, step: Step): World
    requires Enabled(w, step)
  {
    match step
    case Write(disk, events) =>
      var touched := Touched(w.disk, disk);
      w.(disk := disk, undelivered := w.undelivered + events,
         flow := Touch(w.flow, touched), reconciliation := TouchReconciliation(w.reconciliation, touched))
    case Deliver(event) => w.(undelivered := w.undelivered - multiset{event}, s := OnEvent(w.s, event, w.maxEntries))
    case Lose(event) => w.(undelivered := w.undelivered - multiset{event})
    case WatcherFails(dead) => w.(watching := w.watching && !dead, s := w.s.(degraded := Some(UNAVAILABLE_GAP)))
    case Begin => w.(flow := if w.s.snapshot.Some? then BetweenPasses(0) else FirstWalk({}))
    case BeginOverlapping => w.(s := OverlapBegin(w.s))
    case FinishFirst(files, gaps) =>
      w.(s := w.s.(snapshot := Some(files), persistentGaps := Lasting(gaps)), epoch := w.epoch + 1,
         flow := BetweenPasses(0), base := files)
    case StartPass =>
      w.(flow := Draining(w.flow.passes, w.s.snapshot.value,
                          Capture(w.s.processedCursor, w.s.cursor, w.epoch, Identifying(w.s.snapshot.value))))
    case Advance(who, capture) =>
      var c := CaptureOf(w, who).value;
      var advanced := SetCapture(w, who, CaptureNext(w.s, c, capture));
      if MarksReplaced(capture) then advanced.(s := MarkReplaced(w.s, w.every)) else advanced
    case PublishPass(changes) =>
      var c := w.flow.capture;
      w.(s := PublishDrain(w.s, c.phase.files, c.phase.gaps, c.through, changes), epoch := w.epoch + 1,
         flow := BetweenPasses(w.flow.passes + 1))
    case FinishBegin =>
      var drained := EndDrain(w.s);
      w.(s := OpenWindow(drained), flow := Open(WindowOf(drained)), base := w.s.snapshot.value)
    case StartEnd =>
      w.(flow := Ending(w.flow.window, Capture(w.flow.window.cursor, w.s.cursor, w.epoch, Identifying(w.s.snapshot.value))))
    case PublishEnd =>
      var c := w.flow.capture;
      w.(s := CloseWindow(w.s, c.phase.files, c.phase.gaps, c.through, w.every), epoch := w.epoch + 1, flow := Idle,
         last := Some(ResultOf(w.s, w.flow.window, c.phase.files, c.phase.gaps, c.through)), base := c.phase.files)
    case StartReconciliation =>
      if w.s.activeCursor.Some? then w.(s := AbandonReconciliation(w.s, MOVED_GAP))
      else if w.s.cursor > w.s.processedCursor then
        w.(reconciliation := CatchingUp(w.s.snapshot.value,
                                        Capture(w.s.processedCursor, w.s.cursor, w.epoch, Identifying(w.s.snapshot.value))))
      else w.(reconciliation := FullWalk(w.s.snapshot.value, w.epoch, w.s.cursor, w.s.snapshot.value, {}))
    case FinishCatchingUp =>
      var c := w.reconciliation.capture;
      w.(reconciliation := FullWalk(w.reconciliation.previous, c.epoch, c.through, c.phase.files, {}))
    case FinishReconciliation(full, gaps, difference, same, replaced) =>
      if w.s.activeCursor.Some? || w.s.cursor != w.reconciliation.through then
        w.(s := AbandonReconciliation(w.s, MOVED_GAP), reconciliation := NoReconciliation)
      else
        w.(s := Reconcile(w.s, full, gaps, w.reconciliation.through, difference, same, replaced), epoch := w.epoch + 1,
           reconciliation := NoReconciliation)
    case AbortReconciliation(reason) =>
      w.(s := AbandonReconciliation(w.s, reason), reconciliation := NoReconciliation)
  }

  // ---- Runs ----

  /** `Execute(w, steps)` is defined when every step is enabled where it is taken. */
  ghost predicate Legal(w: World, steps: seq<Step>)
    decreases |steps|
  {
    steps == [] || (Enabled(w, steps[0]) && Legal(Next(w, steps[0]), steps[1..]))
  }

  ghost function Execute(w: World, steps: seq<Step>): World
    requires Legal(w, steps)
    decreases |steps|
  {
    if steps == [] then w else Execute(Next(w, steps[0]), steps[1..])
  }
}
