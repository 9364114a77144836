/**
 * The session object of packages/observation/src/node-observation.ts. Each method is one stretch of
 * the boundary's code between two awaits, proved to do to the fields what `Sessions` says it does;
 * `Observation` interleaves exactly those stretches.
 */
module WatchSessions {
  import opened Options
  import opened Paths
  import opened Sets
  import opened Effects
  import opened Sessions
  import opened Observation

  class WatchSession {
    const maxJournalEntries: nat
    const reconciliationEveryWindows: nat
    var journal: seq<JournalEntry>
    var cursor: nat
    var processedCursor: nat
    var activeCursor: Option<nat>
    var degraded: Option<Gap>
    var snapshot: Option<Files>
    var outOfBandChanges: seq<Change>
    var pendingGaps: seq<Gap>
    var persistentGaps: seq<Gap>
    var completedWindows: nat
    var reconciliationScheduled: bool

    /** The session as `Sessions` and `Observation` speak of it. */
    ghost function Value(): Session
      reads this
    {
      Session(journal, cursor, processedCursor, activeCursor, degraded, snapshot, outOfBandChanges,
              pendingGaps, persistentGaps, completedWindows, reconciliationScheduled)
    }

    constructor (maxJournalEntries: nat, reconciliationEveryWindows: nat)
      ensures Value() == NEW_SESSION
      ensures this.maxJournalEntries == maxJournalEntries && this.reconciliationEveryWindows == reconciliationEveryWindows
    {
      this.maxJournalEntries := maxJournalEntries;
      this.reconciliationEveryWindows := reconciliationEveryWindows;
      journal, cursor, processedCursor, activeCursor := [], 0, 0, None;
      degraded, snapshot, outOfBandChanges, pendingGaps, persistentGaps := None, None, [], [], [];
      completedWindows, reconciliationScheduled := 0, false;
    }

    /** The watcher callback. */
    method OnWatchEvent(path: WatchPath)
      modifies this
      ensures Value() == OnEvent(old(Value()), path, maxJournalEntries)
    {
      cursor := cursor + 1;
      journal := journal + [JournalEntry(cursor, path)];
      if |journal| > maxJournalEntries {
        journal := journal[|journal| - maxJournalEntries..];
        degraded := Some(OVERFLOW_GAP);
      }
    }

    method PruneJournal()
      modifies this`journal
      ensures Value() == Prune(old(Value()))
      ensures CursorsAscend(old(journal)) ==> ExactlyPast(old(journal), journal, processedCursor)
    {
      hide CursorsAscend, ExactlyPast;
      if CursorsAscend(journal) { DropProcessedIsFilter(journal, processedCursor); }
      var firstUnprocessed := 0;
      while firstUnprocessed < |journal| && journal[firstUnprocessed].cursor <= processedCursor
        invariant 0 <= firstUnprocessed <= |journal|
        invariant DropProcessed(journal, processedCursor) == DropProcessed(journal[firstUnprocessed..], processedCursor)
      {
        assert journal[firstUnprocessed..][1..] == journal[firstUnprocessed + 1..];
        firstUnprocessed := firstUnprocessed + 1;
      }
      journal := journal[firstUnprocessed..];
    }

    /** The journal part of `captureIncremental`: the paths to read, in reading order, and the gaps already known. */
    method CollectCandidates(from: nat, through: nat) returns (paths: seq<string>, gaps: seq<Gap>, ignoreRulesChanged: bool)
      ensures IsCandidateList(journal, from, through, paths)
      ensures NO_PATH_GAP in gaps <==> NamesNoPath(journal, from, through)
      ensures ORIGIN_GAP in gaps && forall g :: g in gaps ==> g == NO_PATH_GAP || g == ORIGIN_GAP
      ensures ignoreRulesChanged <==> ChangesIgnoreRules(journal, from, through)
    {
      var found: set<string> := {};
      gaps, ignoreRulesChanged := [ORIGIN_GAP], false;
      for i := 0 to |journal|
        invariant forall p :: p in found <==> IsCandidate(journal[..i], from, through, p)
        invariant NO_PATH_GAP in gaps <==> NamesNoPath(journal[..i], from, through)
        invariant ORIGIN_GAP in gaps && forall g :: g in gaps ==> g == NO_PATH_GAP || g == ORIGIN_GAP
        invariant ignoreRulesChanged <==> ChangesIgnoreRules(journal[..i], from, through)
      {
        var entry := journal[i];
        assert journal[..i + 1] == journal[..i] + [entry];
        if InRange(entry, from, through) {
          match entry.path
          case Changed(path) =>
            if IsIgnoreRule(path) { ignoreRulesChanged := true; }
            if !Ignored(path) { found := found + {path}; }
          case _ => gaps := gaps + [NO_PATH_GAP];
        }
      }
      assert journal[..|journal|] == journal;
      paths := InReadingOrder(found);
    }

    /** One pass of `drainOutOfBand` publishes its capture and the changes it found. */
    method PublishPass(files: Files, gaps: seq<Gap>, through: nat, previous: Files) returns (changes: seq<Change>)
      modifies this
      ensures IsDiff(previous, files, changes)
      ensures Value() == PublishDrain(old(Value()), files, gaps, through, changes)
    {
      var found, _ := DiffSnapshots(previous, files, false);
      changes := found;
      outOfBandChanges := outOfBandChanges + OutOfBand(changes);
      PublishCapture(files, gaps, through);
    }

    method PublishCapture(files: Files, gaps: seq<Gap>, through: nat)
      modifies this`snapshot, this`persistentGaps, this`processedCursor, this`journal
      ensures Value() == Publish(old(Value()), files, gaps, through)
    {
      hide CursorsAscend, ExactlyPast, Lasting, DropProcessed, FirstOccurrences;
      snapshot := Some(files);
      persistentGaps := UniqueGaps(persistentGaps + Lasting(gaps));
      processedCursor := through;
      PruneJournal();
    }

    /** `beginWindow` from the end of the drain on. */
    method FinishBegin() returns (window: Window)
      requires snapshot.Some?
      modifies this
      ensures window == WindowOf(EndDrain(old(Value())))
      ensures Value() == Sessions.OpenWindow(EndDrain(old(Value())))
      ensures window.cursor == old(processedCursor) && Some(window.before) == old(snapshot) && window.outOfBand == old(outOfBandChanges)
      ensures forall g :: g in window.gaps <==>
                || g in old(persistentGaps) || g in old(pendingGaps) || old(degraded) == Some(g)
                || (g == BUSY_GAP && old(cursor) > old(processedCursor))
      ensures pendingGaps == [] && outOfBandChanges == [] && activeCursor == Some(old(processedCursor))
    {
      if cursor > processedCursor {
        pendingGaps := pendingGaps + [BUSY_GAP];
      }
      var mark := if degraded.Some? then [degraded.value] else [];
      var gaps := UniqueGaps(persistentGaps + pendingGaps + mark);
      window := Window(processedCursor, snapshot.value, gaps, outOfBandChanges);
      pendingGaps, outOfBandChanges := [], [];
      activeCursor := Some(processedCursor);
    }

    method BeginOverlapping()
      requires activeCursor.Some?
      modifies this`degraded
      ensures Value() == OverlapBegin(old(Value()))
    {
      degraded := Some(OVERLAP_GAP);
    }

    /** `endWindow` once its incremental capture is back. */
    method EndWindow(window: Window, files: Files, gaps: seq<Gap>, drainCursor: nat) returns (result: WindowResult)
      modifies this
      ensures result == ResultOf(old(Value()), window, files, gaps, drainCursor)
      ensures FirstOccurrences(window.gaps + gaps + Degradation(old(Value())) + if old(cursor) > drainCursor then [BUSY_GAP] else [], result.gaps)
      ensures result.complete <==> forall g :: g in result.gaps ==> g == ORIGIN_GAP
      ensures Value() == CloseWindow(old(Value()), files, gaps, drainCursor, reconciliationEveryWindows)
    {
      hide DropProcessed, Unique, Lasting, FirstOccurrences;
      PublishCapture(files, gaps, drainCursor);
      var mark := if degraded.Some? then [degraded.value] else [];
      var late := if cursor > drainCursor then [BUSY_GAP] else [];
      completedWindows := completedWindows + 1;
      if reconciliationEveryWindows > 0 && completedWindows % reconciliationEveryWindows == 0 {
        reconciliationScheduled := true;
      }
      var all := UniqueGaps(window.gaps + gaps + mark + late);
      var complete := AllOrigin(all);
      if degraded == Some(OVERLAP_GAP) {
        degraded := None;
      }
      activeCursor := None;
      result := WindowResult(files, all, complete);
    }

    method AbandonReconciliation(gap: Gap)
      modifies this
      ensures Value() == Sessions.AbandonReconciliation(old(Value()), gap)
    {
      pendingGaps := pendingGaps + [gap];
      completedWindows := if completedWindows == 0 then 0 else completedWindows - 1;
      reconciliationScheduled := false;
    }

    method PublishFull(files: Files, gaps: seq<Gap>, through: nat)
      modifies this`snapshot, this`persistentGaps, this`processedCursor, this`journal
      ensures Value() == Prune(old(Value()).(snapshot := Some(files), persistentGaps := Lasting(gaps), processedCursor := through))
    {
      hide CursorsAscend, ExactlyPast, Lasting, DropProcessed;
      snapshot, persistentGaps, processedCursor := Some(files), Lasting(gaps), through;
      PruneJournal();
    }

    /** The mark goes when the full capture answers it. */
    method Heal(gaps: seq<Gap>, same: bool)
      modifies this`degraded
      ensures degraded == if OnlyToolOrGit(gaps) && old(degraded).Some?
                             && (old(degraded).value.kind.RootReplaced? || (same && old(degraded).value.kind.WatcherOverflow?))
                          then None else old(degraded)
    {
      if degraded.Some? && (degraded.value.kind.RootReplaced? || (same && degraded.value.kind.WatcherOverflow?)) && OnlyToolOrGit(gaps) {
        degraded := None;
      }
    }

    /** The end of a full reconciliation that found the workspace unmoved. */
    method PublishReconciliation(previous: Files, incremental: Files, full: Files, gaps: seq<Gap>, through: nat, sameRepository: bool, replaced: bool)
      returns (changes: seq<Change>)
      modifies this
      ensures IsDiff(previous, full, changes)
      ensures Value() == Reconcile(old(Value()), full, gaps, through, changes, sameRepository && SameFiles(incremental, full), replaced)
    {
      hide IsDiff, SameFiles, DropProcessed, Lasting, Unique, OnlyToolOrGit, OutOfBand;
      if replaced {
        pendingGaps := pendingGaps + [ROOT_GAP];
      }
      var same := SameSnapshot(incremental, full, sameRepository);
      if !same {
        pendingGaps := pendingGaps + [Gap(ReconciliationMismatch, Filesystem)];
      }
      var found, _ := DiffSnapshots(previous, full, false);
      changes := found;
      outOfBandChanges := outOfBandChanges + OutOfBand(changes);
      PublishFull(full, gaps, through);
      Heal(gaps, same);
      reconciliationScheduled := false;
      assert pendingGaps == old(pendingGaps) + (if replaced then [ROOT_GAP] else [])
                            + (if same then [] else [Gap(ReconciliationMismatch, Filesystem)]);
    }
  }

  method UniqueGaps(gaps: seq<Gap>) returns (unique: seq<Gap>)
    ensures unique == Unique(gaps) && FirstOccurrences(gaps, unique)
  {
    hide FirstOccurrences;
    UniqueIsFirstOccurrences(gaps);
    unique := [];
    var seen: set<Gap> := {};
    for i := 0 to |gaps|
      invariant unique == Unique(gaps[..i])
      invariant forall g :: g in seen <==> g in unique
    {
      assert gaps[..i + 1][..i] == gaps[..i];
      if gaps[i] !in seen {
        seen, unique := seen + {gaps[i]}, unique + [gaps[i]];
      }
    }
    assert gaps[..|gaps|] == gaps;
  }

  method AllOrigin(gaps: seq<Gap>) returns (all: bool)
    ensures all <==> OnlyOrigin(gaps)
  {
    for i := 0 to |gaps|
      invariant OnlyOrigin(gaps[..i])
    {
      assert gaps[..i + 1] == gaps[..i] + [gaps[i]] && gaps[i] in gaps;
      if gaps[i] != ORIGIN_GAP { return false; }
    }
    assert gaps[..|gaps|] == gaps;
    return true;
  }

  /** `sameSnapshot`: equal repository identity, equal sizes, and every left path equal on the right. */
  method SameSnapshot(left: Files, right: Files, sameRepository: bool) returns (same: bool)
    ensures same <==> sameRepository && SameFiles(left, right)
  {
    SameFilesHaveOneSize(left, right);
    if !sameRepository || |left| != |right| {
      return false;
    }
    var rest := left.Keys;
    while rest != {}
      invariant rest <= left.Keys
      invariant forall p :: p in left && p !in rest ==> p in right && SameState(left[p], right[p])
      decreases |rest|
    {
      var p :| p in rest;
      if p !in right || !SameState(left[p], right[p]) {
        return false;
      }
      rest := rest - {p};
    }
    assert left.Keys <= right.Keys;
    SubsetOfEqualSize(left.Keys, right.Keys);
    return true;
  }

  lemma SameFilesHaveOneSize(left: Files, right: Files)
    ensures |left| == |left.Keys| && |right| == |right.Keys|
    ensures SameFiles(left, right) ==> |left| == |right|
  {
  }

  lemma ReadingOrderIsTotal(a: string, b: string)
    ensures a == b || ReadBefore(a, b) || ReadBefore(b, a)
  {
    BeforeIsTotal(a, b);
  }

  lemma ReadingOrderIsTransitive(a: string, b: string, c: string)
    requires ReadBefore(a, b) && ReadBefore(b, c)
    ensures ReadBefore(a, c)
  {
    if Before(a, b) && Before(b, c) { BeforeIsTransitive(a, b, c); }
  }

  /** Candidates ordered by depth, then by name. */
  method InReadingOrder(paths: set<string>) returns (ordered: seq<string>)
    ensures forall p :: p in ordered <==> p in paths
    ensures forall i, j :: 0 <= i < j < |ordered| ==> ReadBefore(ordered[i], ordered[j])
  {
    ordered := [];
    var rest := paths;
    while rest != {}
      invariant rest <= paths
      invariant forall p :: p in ordered <==> p in paths && p !in rest
      invariant forall i, j :: 0 <= i < j < |ordered| ==> ReadBefore(ordered[i], ordered[j])
      decreases |rest|
    {
      var p :| p in rest;
      rest := rest - {p};
      var at := 0;
      while at < |ordered| && ReadBefore(ordered[at], p)
        invariant 0 <= at <= |ordered|
        invariant forall k :: 0 <= k < at ==> ReadBefore(ordered[k], p)
      {
        at := at + 1;
      }
      ghost var was := ordered;
      forall k | at <= k < |was| ensures ReadBefore(p, was[k]) {
        assert was[k] in was && was[at] in was;
        ReadingOrderIsTotal(was[at], p);
        if k > at { ReadingOrderIsTransitive(p, was[at], was[k]); }
      }
      ordered := ordered[..at] + [p] + ordered[at..];
      assert was == was[..at] + was[at..];
    }
  }

  // ---- The candidate loop ----

  /** The machine's capture after its first `k` reads. */
  function ReadOn(s: Session, c: Capture, seen: seq<Lookup>, scans: seq<Files>, k: nat): (d: Capture)
    requires c.phase.Reading? && |seen| == |scans| == |c.phase.candidates| && k <= |seen|
    ensures d.phase.Reading? && d.phase.candidates == c.phase.candidates[k..]
    ensures d.from == c.from && d.through == c.through && d.epoch == c.epoch
  {
    if k == 0 then c
    else CaptureNext(s, ReadOn(s, c, seen, scans, k - 1), ReadNext(seen[k - 1], scans[k - 1]))
  }

  /** Every directory scan starts from the files read so far. */
  ghost predicate ScansFollow(s: Session, c: Capture, seen: seq<Lookup>, scans: seq<Files>)
    requires c.phase.Reading? && |seen| == |scans| == |c.phase.candidates|
  {
    forall i :: 0 <= i < |seen| && seen[i].IsDirectory? ==> ScanOf(ReadOn(s, c, seen, scans, i).phase.files, c.phase.candidates[i], scans[i])
  }

  /** What one read decides: a plain file itself, a missing path everything under it, a directory what lies in it. */
  predicate Decides(q: string, seen: Lookup, p: string) {
    match seen
    case IsFile(_) => p == q
    case NotFound => Under(q, p)
    case IsDirectory => q + "/" <= p
    case _ => false
  }

  function Verdict(seen: Lookup, scanned: Files, p: string): Option<Sight> {
    match seen
    case IsFile(hash) => Some(Sight(hash, RegularFile))
    case IsDirectory => SeenIn(scanned, p)
    case _ => None
  }

  predicate Undecided(paths: seq<string>, seen: seq<Lookup>, k: nat, p: string)
    requires k <= |paths| == |seen|
  {
    forall j :: 0 <= j < k ==> !Decides(paths[j], seen[j], p)
  }

  /** Read `i` is the last of the first `k` to decide the path. */
  predicate LastDecider(paths: seq<string>, seen: seq<Lookup>, i: nat, k: nat, p: string)
    requires k <= |paths| == |seen|
  {
    i < k && Decides(paths[i], seen[i], p) && forall j :: i < j < k ==> !Decides(paths[j], seen[j], p)
  }

  lemma OneReadDecides(files: Files, q: string, seen: Lookup, scanned: Files, p: string)
    requires seen.IsDirectory? ==> ScanOf(files, q, scanned)
    ensures SeenIn(ReadCandidate(files, q, seen, scanned), p) == if Decides(q, seen, p) then Verdict(seen, scanned, p) else SeenIn(files, p)
  {
  }

  /** A path ends up as the last read that decides it says, and as it was cached if none does. */
  lemma {:induction false} LastReadDecides(s: Session, c: Capture, seen: seq<Lookup>, scans: seq<Files>, k: nat, p: string)
    requires c.phase.Reading? && |seen| == |scans| == |c.phase.candidates| && k <= |seen| && ScansFollow(s, c, seen, scans)
    ensures var paths, files := c.phase.candidates, ReadOn(s, c, seen, scans, k).phase.files;
            && (Undecided(paths, seen, k, p) ==> SeenIn(files, p) == SeenIn(c.phase.files, p))
            && (forall i: nat :: LastDecider(paths, seen, i, k, p) ==> SeenIn(files, p) == Verdict(seen[i], scans[i], p))
  {
    if k > 0 {
      var before := ReadOn(s, c, seen, scans, k - 1);
      var q := c.phase.candidates[k - 1];
      LastReadDecides(s, c, seen, scans, k - 1, p);
      assert before.phase.candidates[0] == q;
      OneReadDecides(before.phase.files, q, seen[k - 1], scans[k - 1], p);
      assert ReadOn(s, c, seen, scans, k).phase.files == ReadCandidate(before.phase.files, q, seen[k - 1], scans[k - 1]);
      hide ReadOn, ReadCandidate, SeenIn, Decides, Verdict, ScansFollow;
      DeciderBefore(c.phase.candidates, seen, k, p);
    }
  }

  lemma DeciderBefore(paths: seq<string>, seen: seq<Lookup>, k: nat, p: string)
    requires 0 < k <= |paths| == |seen|
    ensures Undecided(paths, seen, k, p) <==> Undecided(paths, seen, k - 1, p) && !Decides(paths[k - 1], seen[k - 1], p)
    ensures forall i: nat :: LastDecider(paths, seen, i, k, p)
              <==> if i == k - 1 then Decides(paths[i], seen[i], p) else LastDecider(paths, seen, i, k - 1, p) && !Decides(paths[k - 1], seen[k - 1], p)
  {
    hide Decides;
  }

  /** The gaps added are exactly one at each path that was neither read, missing nor hashed already. */
  lemma {:induction false} ReadsLeaveGaps(s: Session, c: Capture, seen: seq<Lookup>, scans: seq<Files>, k: nat, g: Gap)
    requires c.phase.Reading? && |seen| == |scans| == |c.phase.candidates| && k <= |seen|
    ensures g in ReadOn(s, c, seen, scans, k).phase.gaps
            <==> g in c.phase.gaps
                 || exists i :: 0 <= i < k && !seen[i].IsFile? && !seen[i].NotFound? && !seen[i].AlreadyHashed?
                                && g == Gap(Unverified, AtPath(c.phase.candidates[i]))
  {
    if k > 0 {
      ReadsLeaveGaps(s, c, seen, scans, k - 1, g);
      assert ReadOn(s, c, seen, scans, k - 1).phase.candidates[0] == c.phase.candidates[k - 1];
    }
  }

  /** The loop of `captureIncremental` over its candidates does what the machine does in as many resumptions. */
  method ReadCandidates(ghost s: Session, ghost c: Capture, before: Files, paths: seq<string>, found: seq<Gap>, seen: seq<Lookup>, scans: seq<Files>)
    returns (files: Files, gaps: seq<Gap>)
    requires |seen| == |paths| == |scans| && c.phase == Reading(before, paths, found)
    ensures ReadOn(s, c, seen, scans, |paths|).phase == Reading(files, [], gaps)
    ensures ScansFollow(s, c, seen, scans) ==>
              forall p :: (Undecided(paths, seen, |paths|, p) ==> SeenIn(files, p) == SeenIn(before, p))
                          && (forall i: nat :: LastDecider(paths, seen, i, |paths|, p) ==> SeenIn(files, p) == Verdict(seen[i], scans[i], p))
  {
    files, gaps := before, found;
    for i := 0 to |paths|
      invariant ReadOn(s, c, seen, scans, i).phase == Reading(files, paths[i..], gaps)
    {
      var path := paths[i];
      match seen[i] {
        case IsFile(hash) => files := files[path := FileState(hash, None, RegularFile)];
        case AlreadyHashed =>
        case NotFound => files := DeleteBelow(files, path);
        case IsDirectory =>
          files := scans[i];
          gaps := gaps + [Gap(Unverified, AtPath(path))];
        case _ => gaps := gaps + [Gap(Unverified, AtPath(path))];
      }
    }
    if ScansFollow(s, c, seen, scans) {
      forall p { LastReadDecides(s, c, seen, scans, |paths|, p); }
    }
  }

  /** A missing path takes everything below it along. */
  method DeleteBelow(files: Files, path: string) returns (kept: Files)
    ensures kept == Without(files, path)
  {
    kept := files;
    var rest := files.Keys;
    while rest != {}
      invariant rest <= files.Keys && rest <= kept.Keys <= files.Keys
      invariant forall p :: p in kept ==> kept[p] == files[p]
      invariant forall p :: p in files && p !in rest ==> (p in kept <==> !Under(path, p))
      decreases |rest|
    {
      var p :| p in rest;
      rest := rest - {p};
      if p == path || path + "/" <= p {
        kept := kept - {p};
      }
    }
  }
}
