/**
 * The observation session of packages/observation/src/node-observation.ts as a value, and what
 * each stretch of code between two awaits does to it.
 */
module Sessions {
  import opened Options
  import opened Paths
  import opened Effects

  datatype GapKind =
    | Unattributed | Unverified | WatcherOverflow | WatcherUnavailable
    | ReconciliationMismatch | RootReplaced | OverlappingWindow

  datatype GapScope = ToolEffects | Filesystem | Workspace | GitMetadata | WindowScope | AtPath(path: string)

  datatype Gap = Gap(kind: GapKind, scope: GapScope)

  /** The gap every capture of effects carries; the only one a complete window may have. */
  const ORIGIN_GAP := Gap(Unverified, ToolEffects)
  const OVERFLOW_GAP := Gap(WatcherOverflow, Filesystem)
  const UNAVAILABLE_GAP := Gap(WatcherUnavailable, Filesystem)
  const ROOT_GAP := Gap(RootReplaced, Workspace)
  const OVERLAP_GAP := Gap(OverlappingWindow, WindowScope)
  const BUSY_GAP := Gap(Unattributed, WindowScope)
  const NO_PATH_GAP := Gap(Unverified, Filesystem)

  /** What a watcher callback names: nothing, a name that is not a logical path, or a path. */
  datatype WatchPath = NoPath | UnsafePath | Changed(path: string)

  datatype JournalEntry = JournalEntry(cursor: nat, path: WatchPath)

  datatype Session = Session(
    journal: seq<JournalEntry>,
    cursor: nat,
    processedCursor: nat,
    activeCursor: Option<nat>,
    degraded: Option<Gap>,
    snapshot: Option<Files>,
    outOfBand: seq<Change>,
    pendingGaps: seq<Gap>,
    persistentGaps: seq<Gap>,
    completedWindows: nat,
    reconciliationScheduled: bool)

  const NEW_SESSION := Session([], 0, 0, None, None, None, [], [], [], 0, false)

  /** `uniqueGaps`: the first occurrence of each gap, in order. */
  function Unique(gaps: seq<Gap>): (unique: seq<Gap>)
    ensures forall g :: g in unique <==> g in gaps
  {
    if gaps == [] then []
    else
      var front := Unique(gaps[..|gaps| - 1]);
      var last := gaps[|gaps| - 1];
      if last in front then front else front + [last]
  }

  /** Where a gap first occurs. */
  function FirstIndex(gaps: seq<Gap>, g: Gap): (i: nat)
    requires g in gaps
    ensures i < |gaps| && gaps[i] == g && g !in gaps[..i]
  {
    if gaps[0] == g then 0
    else
      var rest := FirstIndex(gaps[1..], g);
      assert gaps[..rest + 1] == [gaps[0]] + gaps[1..][..rest];
      rest + 1
  }

  /** Every gap of the list once, in the order of first occurrences. */
  ghost predicate FirstOccurrences(gaps: seq<Gap>, unique: seq<Gap>) {
    && (forall g :: g in unique <==> g in gaps)
    && (forall i, j :: 0 <= i < j < |unique| ==> unique[i] != unique[j])
    && (forall i, j :: 0 <= i < j < |unique| && unique[i] in gaps && unique[j] in gaps ==>
          FirstIndex(gaps, unique[i]) < FirstIndex(gaps, unique[j]))
  }

  lemma FirstIndexStays(gaps: seq<Gap>, more: seq<Gap>, g: Gap)
    requires g in gaps
    ensures FirstIndex(gaps + more, g) == FirstIndex(gaps, g)
  {
    var i, j := FirstIndex(gaps, g), FirstIndex(gaps + more, g);
    assert (gaps + more)[i] == g && (gaps + more)[..i] == gaps[..i];
    assert forall k :: 0 <= k < i ==> gaps[..i][k] == gaps[k];
    assert forall k :: 0 <= k < j ==> (gaps + more)[..j][k] == (gaps + more)[k];
  }

  lemma {:induction false} UniqueIsFirstOccurrences(gaps: seq<Gap>)
    ensures FirstOccurrences(gaps, Unique(gaps))
  {
    if gaps != [] {
      var front, last := gaps[..|gaps| - 1], gaps[|gaps| - 1];
      UniqueIsFirstOccurrences(front);
      assert gaps == front + [last];
      forall g | g in front ensures FirstIndex(gaps, g) == FirstIndex(front, g) { FirstIndexStays(front, [last], g); }
      if last !in front { assert FirstIndex(gaps, last) == |front|; }
    }
  }

  /** `gaps.filter((item) => item.scope !== "tool.effects")`. */
  function Lasting(gaps: seq<Gap>): (lasting: seq<Gap>)
    ensures forall g :: g in lasting <==> g in gaps && g.scope != ToolEffects
  {
    if gaps == [] then []
    else if gaps[0].scope == ToolEffects then Lasting(gaps[1..])
    else [gaps[0]] + Lasting(gaps[1..])
  }

  function Degradation(s: Session): seq<Gap> {
    if s.degraded.Some? then [s.degraded.value] else []
  }

  /** The watcher callback. */
  function OnEvent(s: Session, path: WatchPath, maxEntries: nat): Session {
    var journal := s.journal + [JournalEntry(s.cursor + 1, path)];
    if |journal| > maxEntries then
      s.(cursor := s.cursor + 1, journal := journal[|journal| - maxEntries..], degraded := Some(OVERFLOW_GAP))
    else
      s.(cursor := s.cursor + 1, journal := journal)
  }

  /** `journal.findIndex((entry) => entry.cursor > processedCursor)` and the splice after it. */
  function DropProcessed(journal: seq<JournalEntry>, processed: nat): seq<JournalEntry> {
    if journal == [] then []
    else if journal[0].cursor > processed then journal
    else DropProcessed(journal[1..], processed)
  }

  ghost predicate CursorsAscend(journal: seq<JournalEntry>) {
    forall i, j :: 0 <= i < j < |journal| ==> journal[i].cursor < journal[j].cursor
  }

  /** The entries kept are exactly those past the processed cursor, in order. */
  ghost predicate ExactlyPast(journal: seq<JournalEntry>, kept: seq<JournalEntry>, processed: nat) {
    && |kept| <= |journal| && kept == journal[|journal| - |kept|..]
    && (forall i :: 0 <= i < |journal| - |kept| ==> journal[i].cursor <= processed)
    && (forall i :: 0 <= i < |kept| ==> kept[i].cursor > processed)
  }

  /** On cursors that ascend, as a journal's do, nothing past the processed cursor is dropped and nothing else is kept. */
  lemma {:induction false} DropProcessedIsFilter(journal: seq<JournalEntry>, processed: nat)
    requires CursorsAscend(journal)
    ensures ExactlyPast(journal, DropProcessed(journal, processed), processed)
  {
    if journal != [] && journal[0].cursor <= processed {
      DropProcessedIsFilter(journal[1..], processed);
    }
  }

  function Prune(s: Session): Session {
    s.(journal := DropProcessed(s.journal, s.processedCursor))
  }

  /** A finished incremental capture becomes the session's snapshot. */
  function Publish(s: Session, files: Files, gaps: seq<Gap>, through: nat): Session {
    Prune(s.(snapshot := Some(files),
             persistentGaps := Unique(s.persistentGaps + Lasting(gaps)),
             processedCursor := through))
  }

  function OutOfBand(cs: seq<Change>): (flagged: seq<Change>)
    ensures |flagged| == |cs| && forall i :: 0 <= i < |cs| ==> flagged[i] == cs[i].(outOfBand := true)
  {
    seq(|cs|, i requires 0 <= i < |cs| => cs[i].(outOfBand := true))
  }

  /** One pass of `drainOutOfBand`; `changes` is the difference between the pass's two snapshots. */
  function PublishDrain(s: Session, files: Files, gaps: seq<Gap>, through: nat, changes: seq<Change>): Session {
    Publish(s.(outOfBand := s.outOfBand + OutOfBand(changes)), files, gaps, through)
  }

  /** The end of `drainOutOfBand`: still behind after the last pass means unattributed activity. */
  function EndDrain(s: Session): Session {
    if s.cursor > s.processedCursor then s.(pendingGaps := s.pendingGaps + [BUSY_GAP]) else s
  }

  datatype Window = Window(cursor: nat, before: Files, gaps: seq<Gap>, outOfBand: seq<Change>)

  function WindowOf(s: Session): Window
    requires s.snapshot.Some?
  {
    Window(s.processedCursor, s.snapshot.value, Unique(s.persistentGaps + s.pendingGaps + Degradation(s)), s.outOfBand)
  }

  /** `beginWindow` after the drain hands over gaps and out-of-band changes and becomes active. */
  function OpenWindow(s: Session): Session {
    s.(pendingGaps := [], outOfBand := [], activeCursor := Some(s.processedCursor))
  }

  /** `beginWindow` while a window is active. */
  function OverlapBegin(s: Session): Session {
    s.(degraded := Some(OVERLAP_GAP))
  }

  datatype WindowResult = WindowResult(files: Files, gaps: seq<Gap>, complete: bool)

  predicate OnlyOrigin(gaps: seq<Gap>) {
    forall g :: g in gaps ==> g == ORIGIN_GAP
  }

  function ResultOf(s: Session, w: Window, files: Files, gaps: seq<Gap>, drainCursor: nat): WindowResult {
    var all := Unique(w.gaps + gaps + Degradation(s) + if s.cursor > drainCursor then [BUSY_GAP] else []);
    WindowResult(files, all, OnlyOrigin(all))
  }

  /** `endWindow` once its capture is back; `every` is `reconciliationEveryWindows`. */
  function CloseWindow(s: Session, files: Files, gaps: seq<Gap>, drainCursor: nat, every: nat): Session {
    var published := Publish(s, files, gaps, drainCursor);
    var completed := s.completedWindows + 1;
    published.(
      completedWindows := completed,
      reconciliationScheduled := s.reconciliationScheduled || (every > 0 && completed % every == 0),
      degraded := if s.degraded == Some(OVERLAP_GAP) then None else s.degraded,
      activeCursor := None)
  }

  /** Every way a scheduled reconciliation gives up: a pending gap, and the window count steps back. */
  function AbandonReconciliation(s: Session, gap: Gap): Session {
    s.(pendingGaps := s.pendingGaps + [gap],
       completedWindows := if s.completedWindows == 0 then 0 else s.completedWindows - 1,
       reconciliationScheduled := false)
  }

  predicate OnlyToolOrGit(gaps: seq<Gap>) {
    forall g :: g in gaps ==> g.scope == ToolEffects || g.scope == GitMetadata
  }

  /**
   * A full reconciliation publishes: `same` is `sameSnapshot(incremental, full)`, `replaced` whether
   * the root's identity had changed before the full capture.
   */
  function Reconcile(s: Session, files: Files, gaps: seq<Gap>, through: nat, changes: seq<Change>, same: bool, replaced: bool): Session {
    var heals := OnlyToolOrGit(gaps) && s.degraded.Some?
                 && (s.degraded.value.kind.RootReplaced? || (same && s.degraded.value.kind.WatcherOverflow?));
    Prune(s.(
      pendingGaps := s.pendingGaps + (if replaced then [ROOT_GAP] else [])
                     + (if same then [] else [Gap(ReconciliationMismatch, Filesystem)]),
      outOfBand := s.outOfBand + OutOfBand(changes),
      snapshot := Some(files),
      persistentGaps := Lasting(gaps),
      processedCursor := through,
      degraded := if heals then None else s.degraded,
      reconciliationScheduled := false))
  }

  // ---- Candidates ----

  /** What `lstat` and the ancestor check report for one candidate path. */
  datatype Lookup = BelowSymlink | IsSymlink | IsDirectory | IsSpecial | IsFile(hash: string) | NotFound | Unreadable | AlreadyHashed

  /** The journal entries a capture from `from` through `through` looks at. */
  predicate InRange(entry: JournalEntry, from: nat, through: nat) {
    from < entry.cursor <= through
  }

  predicate IsCandidate(journal: seq<JournalEntry>, from: nat, through: nat, path: string) {
    !Ignored(path) && exists e :: e in journal && InRange(e, from, through) && e.path == Changed(path)
  }

  predicate NamesNoPath(journal: seq<JournalEntry>, from: nat, through: nat) {
    exists e :: e in journal && InRange(e, from, through) && !e.path.Changed?
  }

  predicate ChangesIgnoreRules(journal: seq<JournalEntry>, from: nat, through: nat) {
    exists e :: e in journal && InRange(e, from, through) && e.path.Changed? && IsIgnoreRule(e.path.path)
  }

  /** The order candidates are read in: fewer segments first, then by name. */
  predicate ReadBefore(a: string, b: string) {
    |Segments(a)| < |Segments(b)| || (|Segments(a)| == |Segments(b)| && Before(a, b))
  }

  ghost predicate IsCandidateList(journal: seq<JournalEntry>, from: nat, through: nat, paths: seq<string>) {
    && (forall p :: p in paths <==> IsCandidate(journal, from, through, p))
    && (forall i, j :: 0 <= i < j < |paths| ==> ReadBefore(paths[i], paths[j]))
  }

  function Without(files: Files, q: string): Files {
    map p | p in files && !Under(q, p) :: files[p]
  }

  /** The files after one candidate; a directory is replaced by what its scan found. */
  function ReadCandidate(files: Files, q: string, seen: Lookup, scanned: Files): Files {
    match seen
    case IsFile(hash) => files[q := FileState(hash, None, RegularFile)]
    case NotFound => Without(files, q)
    case IsDirectory => scanned
    case _ => files
  }

  /** Everything but a plain file, a missing path and a file already hashed leaves a gap at the path. */
  function CandidateGaps(q: string, seen: Lookup): seq<Gap> {
    if seen.IsFile? || seen.NotFound? || seen.AlreadyHashed? then [] else [Gap(Unverified, AtPath(q))]
  }
}
