/**
 * The snapshot patch generator of packages/observation/src/effects.ts: the change list between
 * two snapshots, with deleted and created files of equal state paired as renames.
 */
module Effects {
  import opened Paths
  import opened Sets
  import opened Options

  datatype FileKind = RegularFile | Directory | Symlink

  datatype FileState = FileState(contentHash: string, gitBlob: Option<string>, kind: FileKind)

  type Files = map<string, FileState>

  datatype ChangeKind = WasCreated | WasModified | WasDeleted | WasRenamed

  datatype Change = Change(
    path: string,
    previousPath: Option<string>,
    before: Option<FileState>,
    after: Option<FileState>,
    kind: ChangeKind,
    outOfBand: bool)

  datatype EffectGap = AmbiguousRename(scope: string) | OpaqueOperation

  predicate SameState(left: FileState, right: FileState) {
    left.contentHash == right.contentHash && left.kind == right.kind
  }

  /** Equal path sets, and equal content and kind at every path (Git blob names are not compared). */
  predicate SameFiles(left: Files, right: Files) {
    left.Keys == right.Keys && forall p :: p in left ==> left[p].contentHash == right[p].contentHash && left[p].kind == right[p].kind
  }

  // ---- What the change list must contain ----

  /** The created paths that hold the state deleted path `d` had. */
  ghost function Twins(b: Files, a: Files, d: string): set<string>
    requires d in b
  {
    set c | c in a && c !in b && SameState(b[d], a[c])
  }

  /** `d` is the first deleted path of its state. */
  ghost predicate LeastOfItsState(b: Files, a: Files, d: string)
    requires d in b
  {
    forall other :: other in b && other !in a && SameState(b[other], b[d]) && other != d ==> Before(d, other)
  }

  /** A rename is the one created path of a state, taken by the first deleted path of that state. */
  ghost predicate IsRename(b: Files, a: Files, d: string, c: string) {
    d in b && d !in a && Twins(b, a, d) == {c} && c != "" && LeastOfItsState(b, a, d)
  }

  ghost predicate IsRenameSource(b: Files, a: Files, d: string) {
    exists c :: IsRename(b, a, d, c)
  }

  ghost predicate IsRenameTarget(b: Files, a: Files, c: string) {
    exists d :: IsRename(b, a, d, c)
  }

  ghost predicate IsChange(b: Files, a: Files, ch: Change) {
    && !ch.outOfBand
    && match ch.kind
       case WasRenamed =>
         && ch.previousPath.Some? && IsRename(b, a, ch.previousPath.value, ch.path)
         && ch.path in a
         && ch.before == Some(b[ch.previousPath.value]) && ch.after == Some(a[ch.path])
       case WasModified =>
         && ch.path in b && ch.path in a && !SameState(b[ch.path], a[ch.path])
         && ch == Change(ch.path, None, Some(b[ch.path]), Some(a[ch.path]), WasModified, false)
       case WasDeleted =>
         && ch.path in b && ch.path !in a && !IsRenameSource(b, a, ch.path)
         && ch == Change(ch.path, None, Some(b[ch.path]), None, WasDeleted, false)
       case WasCreated =>
         && ch.path in a && ch.path !in b && !IsRenameTarget(b, a, ch.path)
         && ch == Change(ch.path, None, None, Some(a[ch.path]), WasCreated, false)
  }

  ghost predicate PathsAscend(cs: seq<Change>) {
    forall i, j :: 0 <= i < j < |cs| ==> Before(cs[i].path, cs[j].path)
  }

  /** The whole specification of a change list: strictly ascending, and exactly the changes there are. */
  ghost predicate IsDiff(b: Files, a: Files, cs: seq<Change>) {
    PathsAscend(cs) && forall ch :: ch in cs <==> IsChange(b, a, ch)
  }

  lemma {:induction false} SameMembersInOrder(one: seq<Change>, other: seq<Change>)
    requires PathsAscend(one) && PathsAscend(other) && forall ch :: ch in one <==> ch in other
    requires (one == [] || one[0] in other) && (other == [] || other[0] in one)
    ensures one == other
  {
    if one != [] && other != [] {
      BeforeIsTotal(one[0].path, other[0].path);
      assert one[0] == other[0];
      forall ch ensures ch in one[1..] <==> ch in other[1..] {
        BeforeIsTotal(one[0].path, one[0].path);
        assert ch in one <==> ch == one[0] || ch in one[1..];
        assert ch in other <==> ch == other[0] || ch in other[1..];
      }
      assert |one| > 1 ==> one[1..][0] in one[1..];
      assert |other| > 1 ==> other[1..][0] in other[1..];
      SameMembersInOrder(one[1..], other[1..]);
    }
  }

  /** Two snapshots have one change list. */
  lemma DiffIsUnique(b: Files, a: Files, one: seq<Change>, other: seq<Change>)
    requires IsDiff(b, a, one) && IsDiff(b, a, other)
    ensures one == other
  {
    assert one == [] || one[0] in one;
    assert other == [] || other[0] in other;
    SameMembersInOrder(one, other);
  }

  // ---- Facts about the pairing ----

  lemma TwinsOfTwins(b: Files, a: Files, d: string, other: string)
    requires d in b && other in b && SameState(b[d], b[other])
    ensures Twins(b, a, d) == Twins(b, a, other)
  {
  }

  /** No two deleted paths are paired with one created path. */
  lemma RenamesAreInjective(b: Files, a: Files, d: string, other: string, c: string)
    requires IsRename(b, a, d, c) && IsRename(b, a, other, c)
    ensures d == other
  {
    assert c in Twins(b, a, d) && c in Twins(b, a, other);
    assert SameState(b[d], b[other]);
    BeforeIsTotal(d, other);
  }

  /**
   * The greedy loop meets the closed form: the candidates left for `d` after all earlier deleted
   * paths have been served are its twins, minus the one twin an earlier path of equal state took.
   */
  lemma CandidatesLeft(b: Files, a: Files, d: string, earlier: set<string>, taken: set<string>)
    requires d in b && d !in a && d !in earlier
    requires forall e :: e in earlier ==> e in b && e !in a
    requires forall o :: o in b && o !in a && Before(o, d) ==> o in earlier
    requires forall o :: o in earlier ==> Before(o, d)
    requires forall c :: c in taken <==> exists e :: e in earlier && IsRename(b, a, e, c)
    ensures (exists c :: Twins(b, a, d) - taken == {c} && c != "") <==> IsRenameSource(b, a, d)
    ensures forall c :: Twins(b, a, d) - taken == {c} && c != "" ==> IsRename(b, a, d, c)
    ensures |Twins(b, a, d) - taken| > 1 <==> |Twins(b, a, d)| > 1
  {
    var twins := Twins(b, a, d);
    forall c | c in twins && c in taken
      ensures twins == {c}
      ensures !LeastOfItsState(b, a, d)
    {
      var e :| e in earlier && IsRename(b, a, e, c);
      assert c in Twins(b, a, e);
      TwinsOfTwins(b, a, d, e);
      BeforeIsTotal(d, e);
    }
    if c :| c in twins && c in taken {
      assert twins - taken == {};
    } else {
      assert twins - taken == twins;
      forall c | twins == {c} && c != ""
        ensures IsRename(b, a, d, c)
      {
        forall o | o in b && o !in a && SameState(b[o], b[d]) && o != d
          ensures Before(d, o)
        {
          BeforeIsTotal(d, o);
          if Before(o, d) {
            FirstOfStateTakes(b, a, o, c, d);
            var e :| IsRename(b, a, e, c) && (e == o || Before(e, o));
            if Before(e, o) { BeforeIsTransitive(e, o, d); }
            assert false;
          }
        }
      }
    }
  }

  /** When a state has one created path, some deleted path of that state, at or before `o`, is paired with it. */
  lemma {:induction false} FirstOfStateTakes(b: Files, a: Files, o: string, c: string, d: string)
    requires d in b && d !in a && Twins(b, a, d) == {c} && c != ""
    requires o in b && o !in a && SameState(b[o], b[d])
    ensures exists e :: IsRename(b, a, e, c) && (e == o || Before(e, o))
    decreases |set x | x in b && Before(x, o)|
  {
    TwinsOfTwins(b, a, d, o);
    if LeastOfItsState(b, a, o) {
      assert IsRename(b, a, o, c);
    } else {
      var smaller :| smaller in b && smaller !in a && SameState(b[smaller], b[o]) && smaller != o && !Before(o, smaller);
      BeforeIsTotal(o, smaller);
      var below, above := set x | x in b && Before(x, smaller), set x | x in b && Before(x, o);
      forall x | x in below ensures x in above { BeforeIsTransitive(x, smaller, o); }
      assert smaller in above;
      BeforeIsTotal(smaller, smaller);
      assert smaller !in below;
      StrictSubsetSize(below, above);
      FirstOfStateTakes(b, a, smaller, c, d);
      var e :| IsRename(b, a, e, c) && (e == smaller || Before(e, smaller));
      if Before(e, smaller) { BeforeIsTransitive(e, smaller, o); }
    }
  }

  // ---- The generator ----

  /** `createdPaths.filter(...)`: the twins of a deleted path that are not yet paired. */
  method Candidates(state: FileState, after: Files, created: seq<string>, taken: set<string>, ghost left: set<string>)
    returns (found: seq<string>)
    requires Ascending(created) && forall c :: c in created ==> c in after
    requires forall c :: c in left <==> c in created && c !in taken && SameState(state, after[c])
    ensures forall c :: c in found <==> c in left
    ensures |found| == |left|
  {
    found := [];
    ghost var collected: set<string> := {};
    for i := 0 to |created|
      invariant forall c :: c in collected <==> c in left && c in created[..i]
      invariant forall c :: c in found <==> c in collected
      invariant |found| == |collected|
    {
      var c := created[i];
      Fresh(created, i);
      if c !in taken && SameState(state, after[c]) {
        found, collected := found + [c], collected + {c};
      }
    }
    assert created[..|created|] == created;
    assert collected == left;
  }

  ghost predicate DistinctPaths(cs: seq<Change>) {
    forall i, j :: 0 <= i < j < |cs| ==> cs[i].path != cs[j].path
  }

  /** The list holds exactly the changes of one kind, each path once. */
  ghost predicate AllOfKind(b: Files, a: Files, cs: seq<Change>, kind: ChangeKind) {
    DistinctPaths(cs) && forall ch :: ch in cs <==> IsChange(b, a, ch) && ch.kind == kind
  }

  method DiffSnapshots(before: Files, after: Files, opaqueCall: bool) returns (changes: seq<Change>, gaps: seq<EffectGap>)
    ensures IsDiff(before, after, changes)
    ensures forall d :: AmbiguousRename(d) in gaps <==> d in before && d !in after && |Twins(before, after, d)| > 1
    ensures OpaqueOperation in gaps <==> opaqueCall
  {
    var deletedPaths := SortSet(set p | p in before && p !in after);
    var createdPaths := SortSet(set p | p in after && p !in before);
    var renamed, pairedDeleted, pairedCreated, ambiguous := PairRenames(before, after, deletedPaths, createdPaths);
    var modified := ModifiedPaths(before, after);
    var deleted := DeletedPaths(before, after, deletedPaths, pairedDeleted);
    var created := CreatedPaths(before, after, createdPaths, pairedCreated);
    AppendKinds(before, after, renamed, modified, deleted, created);
    changes := SortByPath(renamed + modified + deleted + created);
    gaps := ambiguous + if opaqueCall then [OpaqueOperation] else [];
  }

  lemma AppendKinds(b: Files, a: Files, renamed: seq<Change>, modified: seq<Change>, deleted: seq<Change>, created: seq<Change>)
    requires AllOfKind(b, a, renamed, WasRenamed) && AllOfKind(b, a, modified, WasModified)
    requires AllOfKind(b, a, deleted, WasDeleted) && AllOfKind(b, a, created, WasCreated)
    ensures DistinctPaths(renamed + modified + deleted + created)
    ensures forall ch :: ch in renamed + modified + deleted + created <==> IsChange(b, a, ch)
  {
    var all := renamed + modified + deleted + created;
    forall i, j | 0 <= i < j < |all|
      ensures all[i].path != all[j].path
    {
      assert IsChange(b, a, all[i]) && IsChange(b, a, all[j]);
      if all[i].path == all[j].path {
        ChangesAreUnique(b, a, all[i], all[j]);
      }
    }
  }

  /** A path is the subject of at most one change. */
  lemma ChangesAreUnique(b: Files, a: Files, left: Change, right: Change)
    requires IsChange(b, a, left) && IsChange(b, a, right) && left.path == right.path
    ensures left == right
  {
    if left.kind.WasRenamed? || right.kind.WasRenamed? {
      if left.kind.WasRenamed? { RenameIsCreation(b, a, left); }
      if right.kind.WasRenamed? { RenameIsCreation(b, a, right); }
      if left.kind.WasRenamed? && right.kind.WasRenamed? {
        RenamesAreInjective(b, a, left.previousPath.value, right.previousPath.value, left.path);
      }
    }
  }

  lemma RenameIsCreation(b: Files, a: Files, ch: Change)
    requires IsChange(b, a, ch) && ch.kind.WasRenamed?
    ensures ch.path in a && ch.path !in b && IsRenameTarget(b, a, ch.path)
    ensures SameState(b[ch.previousPath.value], a[ch.path])
  {
    assert ch.path in Twins(b, a, ch.previousPath.value);
  }

  method ModifiedPaths(before: Files, after: Files) returns (changes: seq<Change>)
    ensures AllOfKind(before, after, changes, WasModified)
  {
    changes := [];
    var beforePaths := SortSet(before.Keys);
    for i := 0 to |beforePaths|
      invariant DistinctPaths(changes)
      invariant forall ch :: ch in changes <==> IsChange(before, after, ch) && ch.kind.WasModified? && ch.path in beforePaths[..i]
    {
      var path := beforePaths[i];
      Fresh(beforePaths, i);
      if path in after && !SameState(before[path], after[path]) {
        changes := changes + [Change(path, None, Some(before[path]), Some(after[path]), WasModified, false)];
      }
    }
    assert beforePaths[..|beforePaths|] == beforePaths;
  }

  method DeletedPaths(before: Files, after: Files, deletedPaths: seq<string>, paired: set<string>) returns (changes: seq<Change>)
    requires Ascending(deletedPaths) && forall p :: p in deletedPaths <==> p in before && p !in after
    requires forall d :: d in paired <==> IsRenameSource(before, after, d)
    ensures AllOfKind(before, after, changes, WasDeleted)
  {
    changes := [];
    for i := 0 to |deletedPaths|
      invariant DistinctPaths(changes)
      invariant forall ch :: ch in changes <==> IsChange(before, after, ch) && ch.kind.WasDeleted? && ch.path in deletedPaths[..i]
    {
      var path := deletedPaths[i];
      Fresh(deletedPaths, i);
      if path !in paired {
        changes := changes + [Change(path, None, Some(before[path]), None, WasDeleted, false)];
      }
    }
    assert deletedPaths[..|deletedPaths|] == deletedPaths;
  }

  method CreatedPaths(before: Files, after: Files, createdPaths: seq<string>, paired: set<string>) returns (changes: seq<Change>)
    requires Ascending(createdPaths) && forall p :: p in createdPaths <==> p in after && p !in before
    requires forall c :: c in paired <==> IsRenameTarget(before, after, c)
    ensures AllOfKind(before, after, changes, WasCreated)
  {
    changes := [];
    for i := 0 to |createdPaths|
      invariant DistinctPaths(changes)
      invariant forall ch :: ch in changes <==> IsChange(before, after, ch) && ch.kind.WasCreated? && ch.path in createdPaths[..i]
    {
      var path := createdPaths[i];
      Fresh(createdPaths, i);
      if path !in paired {
        changes := changes + [Change(path, None, None, Some(after[path]), WasCreated, false)];
      }
    }
    assert createdPaths[..|createdPaths|] == createdPaths;
  }

  /** In a strictly ascending list no element has occurred before. */
  lemma Fresh(xs: seq<string>, i: nat)
    requires i < |xs| && Ascending(xs)
    ensures xs[i] !in xs[..i]
    ensures xs[..i + 1] == xs[..i] + [xs[i]]
  {
    if xs[i] in xs[..i] {
      var j :| 0 <= j < i && xs[j] == xs[i];
      BeforeIsTotal(xs[i], xs[i]);
    }
  }

  /** What the pairing loop has established once the deleted paths in `done` are served. */
  ghost predicate Paired(b: Files, a: Files, done: set<string>,
                         renamed: seq<Change>, pairedDeleted: set<string>, pairedCreated: set<string>, gaps: seq<EffectGap>)
  {
    && DistinctPaths(renamed)
    && (forall ch :: ch in renamed <==> IsChange(b, a, ch) && ch.kind.WasRenamed? && ch.previousPath.value in done)
    && (forall d :: d in pairedDeleted <==> d in done && IsRenameSource(b, a, d))
    && (forall c :: c in pairedCreated <==> exists d :: d in done && IsRename(b, a, d, c))
    && (forall g :: g in gaps <==> g.AmbiguousRename? && g.scope in done && g.scope in b && |Twins(b, a, g.scope)| > 1)
  }

  /** `d` is not renamed: only the gap list may grow. */
  lemma PairedUnrenamed(b: Files, a: Files, done: set<string>, d: string,
                        renamed: seq<Change>, pairedDeleted: set<string>, pairedCreated: set<string>, gaps: seq<EffectGap>)
    requires Paired(b, a, done, renamed, pairedDeleted, pairedCreated, gaps)
    requires d in b && forall c :: !IsRename(b, a, d, c)
    ensures Paired(b, a, done + {d}, renamed, pairedDeleted, pairedCreated,
                   if |Twins(b, a, d)| > 1 then gaps + [AmbiguousRename(d)] else gaps)
  {
  }

  lemma PairedRename(b: Files, a: Files, done: set<string>, d: string, c: string, ch: Change,
                     renamed: seq<Change>, pairedDeleted: set<string>, pairedCreated: set<string>, gaps: seq<EffectGap>)
    requires Paired(b, a, done, renamed, pairedDeleted, pairedCreated, gaps)
    requires c !in pairedCreated && c in a && forall x :: IsRename(b, a, d, x) <==> x == c
    requires d in b && |Twins(b, a, d)| <= 1
    requires ch == Change(c, Some(d), Some(b[d]), Some(a[c]), WasRenamed, false)
    ensures Paired(b, a, done + {d}, renamed + [ch], pairedDeleted + {d}, pairedCreated + {c}, gaps)
  {
    hide IsRename;
    assert IsRename(b, a, d, c);
    assert IsChange(b, a, ch);
    forall i | 0 <= i < |renamed| ensures renamed[i].path != c {
      assert renamed[i] in renamed;
      assert IsRename(b, a, renamed[i].previousPath.value, renamed[i].path);
    }
  }

  /** The greedy pairing loop over the sorted deleted paths. */
  method PairRenames(before: Files, after: Files, deletedPaths: seq<string>, createdPaths: seq<string>)
    returns (renamed: seq<Change>, pairedDeleted: set<string>, pairedCreated: set<string>, gaps: seq<EffectGap>)
    requires Ascending(deletedPaths) && Ascending(createdPaths)
    requires forall p :: p in deletedPaths <==> p in before && p !in after
    requires forall p :: p in createdPaths <==> p in after && p !in before
    ensures AllOfKind(before, after, renamed, WasRenamed)
    ensures forall d :: d in pairedDeleted <==> IsRenameSource(before, after, d)
    ensures forall c :: c in pairedCreated <==> IsRenameTarget(before, after, c)
    ensures forall g :: g in gaps <==> g.AmbiguousRename? && g.scope in before && g.scope !in after && |Twins(before, after, g.scope)| > 1
  {
    hide IsRename, IsChange, IsRenameSource, IsRenameTarget;
    renamed, pairedDeleted, pairedCreated, gaps := [], {}, {}, [];
    ghost var done: set<string> := {};
    for i := 0 to |deletedPaths|
      invariant forall d :: d in done <==> d in deletedPaths[..i]
      invariant Paired(before, after, done, renamed, pairedDeleted, pairedCreated, gaps)
    {
      var d := deletedPaths[i];
      Fresh(deletedPaths, i);
      EarlierPaths(deletedPaths, i);
      Verdict(before, after, d, done, pairedCreated);
      ghost var left := Twins(before, after, d) - pairedCreated;
      var candidates := Candidates(before[d], after, createdPaths, pairedCreated, left);
      OnlyOne(left, candidates);
      if |candidates| != 1 || candidates[0] == "" {
        PairedUnrenamed(before, after, done, d, renamed, pairedDeleted, pairedCreated, gaps);
        if |candidates| > 1 {
          gaps := gaps + [AmbiguousRename(d)];
        }
      } else {
        var c := candidates[0];
        var ch := Change(c, Some(d), Some(before[d]), Some(after[c]), WasRenamed, false);
        PairedRename(before, after, done, d, c, ch, renamed, pairedDeleted, pairedCreated, gaps);
        pairedDeleted, pairedCreated, renamed := pairedDeleted + {d}, pairedCreated + {c}, renamed + [ch];
      }
      done := done + {d};
    }
    assert deletedPaths[..|deletedPaths|] == deletedPaths;
    PairedAll(before, after, done, renamed, pairedDeleted, pairedCreated, gaps);
  }

  lemma PairedAll(b: Files, a: Files, done: set<string>,
                  renamed: seq<Change>, pairedDeleted: set<string>, pairedCreated: set<string>, gaps: seq<EffectGap>)
    requires Paired(b, a, done, renamed, pairedDeleted, pairedCreated, gaps)
    requires forall d :: d in done <==> d in b && d !in a
    ensures AllOfKind(b, a, renamed, WasRenamed)
    ensures forall d :: d in pairedDeleted <==> IsRenameSource(b, a, d)
    ensures forall c :: c in pairedCreated <==> IsRenameTarget(b, a, c)
  {
    assert forall d, c :: IsRename(b, a, d, c) ==> d in done;
  }

  lemma OnlyOne(s: set<string>, xs: seq<string>)
    requires (forall x :: x in xs <==> x in s) && |xs| == |s|
    ensures |xs| == 1 ==> s == {xs[0]}
    ensures |xs| == 0 ==> s == {}
  {
    if |xs| == 1 {
      assert forall x :: x in s ==> x == xs[0];
    }
  }

  /** What the number of candidates left says about deleted path `d`. */
  lemma Verdict(b: Files, a: Files, d: string, earlier: set<string>, taken: set<string>)
    requires d in b && d !in a && d !in earlier
    requires forall e :: e in earlier ==> e in b && e !in a
    requires forall o :: o in b && o !in a && Before(o, d) ==> o in earlier
    requires forall o :: o in earlier ==> Before(o, d)
    requires forall c :: c in taken <==> exists e :: e in earlier && IsRename(b, a, e, c)
    ensures var left := Twins(b, a, d) - taken;
            && (|left| > 1 <==> |Twins(b, a, d)| > 1)
            && (|left| > 1 || left == {} || left == {""} ==> forall c :: !IsRename(b, a, d, c))
            && (forall c :: left == {c} && c != "" ==> c !in taken && forall x :: IsRename(b, a, d, x) <==> x == c)
  {
    CandidatesLeft(b, a, d, earlier, taken);
    var left := Twins(b, a, d) - taken;
    forall c | IsRename(b, a, d, c)
      ensures left == {c} && c != ""
    {
      var x :| left == {x} && x != "";
      assert x in Twins(b, a, d) && x in {c};
    }
    if left == {""} {
      assert "" in left;
    }
  }

  lemma EarlierPaths(xs: seq<string>, i: nat)
    requires i < |xs| && Ascending(xs)
    ensures forall o :: o in xs[..i] ==> Before(o, xs[i])
    ensures forall o :: o in xs && Before(o, xs[i]) ==> o in xs[..i]
  {
    forall o | o in xs && Before(o, xs[i]) ensures o in xs[..i] {
      var j :| 0 <= j < |xs| && xs[j] == o;
      BeforeIsTotal(o, xs[i]);
    }
  }

  /** `changes.sort(by path)`; the paths are distinct, so the result is the only ascending arrangement. */
  method SortByPath(cs: seq<Change>) returns (sorted: seq<Change>)
    requires DistinctPaths(cs)
    ensures PathsAscend(sorted)
    ensures forall ch :: ch in sorted <==> ch in cs
  {
    hide PathsAscend;
    sorted := [];
    assert PathsAscend([]) by { NothingAscends(); }
    for i := 0 to |cs|
      invariant PathsAscend(sorted)
      invariant forall ch :: ch in sorted <==> ch in cs[..i]
    {
      var at := 0;
      while at < |sorted| && Before(sorted[at].path, cs[i].path)
        invariant 0 <= at <= |sorted|
        invariant forall k :: 0 <= k < at ==> Before(sorted[k].path, cs[i].path)
      {
        at := at + 1;
      }
      assert cs[..i + 1] == cs[..i] + [cs[i]];
      forall ch | ch in sorted ensures ch.path != cs[i].path {
        var k :| 0 <= k < i && cs[..i][k] == ch;
        assert cs[k].path != cs[i].path;
      }
      InsertAscends(sorted, at, cs[i]);
      sorted := sorted[..at] + [cs[i]] + sorted[at..];
    }
    assert cs[..|cs|] == cs;
  }

  lemma NothingAscends()
    ensures PathsAscend([])
  {
  }

  lemma InsertAscends(sorted: seq<Change>, at: nat, ch: Change)
    requires PathsAscend(sorted) && at <= |sorted| && forall other :: other in sorted ==> other.path != ch.path
    requires forall k :: 0 <= k < at ==> Before(sorted[k].path, ch.path)
    requires at < |sorted| ==> !Before(sorted[at].path, ch.path)
    ensures PathsAscend(sorted[..at] + [ch] + sorted[at..])
    ensures forall other :: other in sorted[..at] + [ch] + sorted[at..] <==> other in sorted || other == ch
  {
    forall k | at <= k < |sorted| ensures Before(ch.path, sorted[k].path) {
      assert sorted[at] in sorted;
      BeforeIsTotal(sorted[at].path, ch.path);
      if k > at { BeforeIsTransitive(ch.path, sorted[at].path, sorted[k].path); }
    }
    assert sorted == sorted[..at] + sorted[at..];
  }

  // ---- Applying a change list ----

  function Apply(files: Files, ch: Change): Files {
    var without := if ch.previousPath.Some? then files - {ch.previousPath.value} else files;
    if ch.after.Some? then without[ch.path := ch.after.value] else without - {ch.path}
  }

  function ApplyAll(files: Files, cs: seq<Change>): Files
    decreases |cs|
  {
    if cs == [] then files else ApplyAll(Apply(files, cs[0]), cs[1..])
  }

  /** The paths a change writes or removes. */
  function Footprint(ch: Change): set<string> {
    {ch.path} + if ch.previousPath.Some? then {ch.previousPath.value} else {}
  }

  /** What a change leaves at a path of its footprint. */
  function Left(ch: Change, p: string): Option<FileState> {
    if p == ch.path then ch.after else None
  }

  function At(files: Files, p: string): Option<FileState> {
    if p in files then Some(files[p]) else None
  }

  ghost predicate DisjointFootprints(cs: seq<Change>) {
    forall i, j :: 0 <= i < j < |cs| ==> Footprint(cs[i]) !! Footprint(cs[j])
  }

  /** Changes with disjoint footprints act independently: each path gets what its own change leaves. */
  lemma {:induction false} ApplyPointwise(files: Files, cs: seq<Change>, p: string)
    requires DisjointFootprints(cs)
    ensures forall i :: 0 <= i < |cs| && p in Footprint(cs[i]) ==> At(ApplyAll(files, cs), p) == Left(cs[i], p)
    ensures (forall i :: 0 <= i < |cs| ==> p !in Footprint(cs[i])) ==> At(ApplyAll(files, cs), p) == At(files, p)
    decreases |cs|
  {
    if cs != [] {
      ApplyPointwise(Apply(files, cs[0]), cs[1..], p);
      forall i | 0 <= i < |cs| && p in Footprint(cs[i])
        ensures At(ApplyAll(files, cs), p) == Left(cs[i], p)
      {
        if i == 0 {
          assert forall k :: 0 <= k < |cs[1..]| ==> p !in Footprint(cs[1..][k]) by {
            forall k | 0 <= k < |cs[1..]| ensures p !in Footprint(cs[1..][k]) {
              assert Footprint(cs[0]) !! Footprint(cs[k + 1]);
            }
          }
        } else {
          assert cs[1..][i - 1] == cs[i];
        }
      }
      if forall i :: 0 <= i < |cs| ==> p !in Footprint(cs[i]) {
        assert forall k :: 0 <= k < |cs[1..]| ==> p !in Footprint(cs[1..][k]) by {
          forall k | 0 <= k < |cs[1..]| ensures p !in Footprint(cs[1..][k]) { assert cs[1..][k] == cs[k + 1]; }
        }
      }
    }
  }

  lemma FootprintsAreDisjoint(b: Files, a: Files, left: Change, right: Change)
    requires IsChange(b, a, left) && IsChange(b, a, right) && left != right
    ensures Footprint(left) !! Footprint(right)
  {
    if left.path == right.path {
      ChangesAreUnique(b, a, left, right);
    }
    if left.kind.WasRenamed? { RenameIsCreation(b, a, left); }
    if right.kind.WasRenamed? { RenameIsCreation(b, a, right); }
  }

  /** The change that accounts for path `p`, if the two snapshots differ there. */
  lemma ChangeAt(b: Files, a: Files, p: string)
    ensures (p in b && p in a && SameState(b[p], a[p])) || (p !in b && p !in a)
            || exists ch :: IsChange(b, a, ch) && p in Footprint(ch) && Left(ch, p) == At(a, p)
  {
    if p in b && p in a && !SameState(b[p], a[p]) {
      assert IsChange(b, a, Change(p, None, Some(b[p]), Some(a[p]), WasModified, false));
    } else if p in b && p !in a {
      if c :| IsRename(b, a, p, c) {
        assert c in Twins(b, a, p);
        assert IsChange(b, a, Change(c, Some(p), Some(b[p]), Some(a[c]), WasRenamed, false));
      } else {
        assert IsChange(b, a, Change(p, None, Some(b[p]), None, WasDeleted, false));
      }
    } else if p !in b && p in a {
      if d :| IsRename(b, a, d, p) {
        assert p in Twins(b, a, d);
        assert IsChange(b, a, Change(p, Some(d), Some(b[d]), Some(a[p]), WasRenamed, false));
      } else {
        assert IsChange(b, a, Change(p, None, None, Some(a[p]), WasCreated, false));
      }
    }
  }

  /** A change only touches paths at which the snapshots differ, and leaves there what `a` holds. */
  lemma ChangeIsNeeded(b: Files, a: Files, ch: Change, p: string)
    requires IsChange(b, a, ch) && p in Footprint(ch)
    ensures Left(ch, p) == At(a, p)
    ensures !(p in b && p in a && SameState(b[p], a[p]))
  {
    if ch.kind.WasRenamed? { RenameIsCreation(b, a, ch); }
  }

  /**
   * The change list is a patch in any order: whatever order its elements are applied in, `before`
   * becomes `after` up to file state.
   */
  lemma PatchInAnyOrder(b: Files, a: Files, cs: seq<Change>, order: seq<Change>)
    requires IsDiff(b, a, cs) && multiset(order) == multiset(cs)
    ensures SameFiles(ApplyAll(b, order), a)
  {
    NoRepeats(cs);
    assert forall ch :: ch in order <==> ch in multiset(order);
    assert forall ch :: ch in cs <==> ch in multiset(cs);
    forall i, j | 0 <= i < j < |order|
      ensures Footprint(order[i]) !! Footprint(order[j])
    {
      DistinctInPermutation(order, cs, i, j);
      FootprintsAreDisjoint(b, a, order[i], order[j]);
    }
    var result := ApplyAll(b, order);
    forall p
      ensures p in result <==> p in a
      ensures p in a && p in result ==> SameState(result[p], a[p])
    {
      ApplyPointwise(b, order, p);
      ChangeAt(b, a, p);
      if ch :| IsChange(b, a, ch) && p in Footprint(ch) {
        assert ch in order;
        var i :| 0 <= i < |order| && order[i] == ch;
        ChangeIsNeeded(b, a, ch, p);
        assert At(result, p) == At(a, p);
      } else {
        assert forall i :: 0 <= i < |order| ==> p !in Footprint(order[i]) by {
          forall i | 0 <= i < |order| ensures p !in Footprint(order[i]) { assert order[i] in order; }
        }
        assert At(result, p) == At(b, p);
      }
    }
    assert result.Keys == a.Keys;
  }

  /** Both snapshots lack the path, or both hold the same content and kind there. */
  predicate SameAt(left: Files, right: Files, p: string) {
    && (p in left <==> p in right)
    && (p in left && p in right ==> left[p].contentHash == right[p].contentHash && left[p].kind == right[p].kind)
  }

  /** The list touches a path exactly if the snapshots differ there, in presence, content or kind. */
  lemma TouchedIff(b: Files, a: Files, cs: seq<Change>, p: string)
    requires IsDiff(b, a, cs)
    ensures (exists i :: 0 <= i < |cs| && p in Footprint(cs[i])) <==> !SameAt(b, a, p)
  {
    if i :| 0 <= i < |cs| && p in Footprint(cs[i]) {
      assert cs[i] in cs;
      NeededDiffers(b, a, cs[i], p);
    }
    if !SameAt(b, a, p) {
      var ch := TouchedBy(b, a, p);
      var i :| 0 <= i < |cs| && cs[i] == ch;
    }
  }

  /** Some change touches every path at which the snapshots differ. */
  lemma TouchedBy(b: Files, a: Files, p: string) returns (ch: Change)
    requires !SameAt(b, a, p)
    ensures IsChange(b, a, ch) && p in Footprint(ch)
  {
    if p in b && p in a {
      ch := Change(p, None, Some(b[p]), Some(a[p]), WasModified, false);
    } else if p in b {
      if c :| IsRename(b, a, p, c) {
        ch := Change(c, Some(p), Some(b[p]), Some(a[c]), WasRenamed, false);
      } else {
        ch := Change(p, None, Some(b[p]), None, WasDeleted, false);
      }
    } else {
      if d :| IsRename(b, a, d, p) {
        ch := Change(p, Some(d), Some(b[d]), Some(a[p]), WasRenamed, false);
      } else {
        ch := Change(p, None, None, Some(a[p]), WasCreated, false);
      }
    }
  }

  /**
   * The patch from `b` to `a` turns some other snapshot into `a` exactly when that snapshot agrees
   * with `b` wherever `b` and `a` agree.
   */
  lemma PatchAppliesIff(b: Files, a: Files, cs: seq<Change>, other: Files)
    requires IsDiff(b, a, cs)
    ensures SameFiles(ApplyAll(other, cs), a) <==> forall p :: SameAt(b, a, p) ==> SameAt(other, b, p)
  {
    forall i, j | 0 <= i < j < |cs| ensures Footprint(cs[i]) !! Footprint(cs[j]) {
      assert cs[i] in cs && cs[j] in cs && Before(cs[i].path, cs[j].path);
      BeforeIsTotal(cs[i].path, cs[i].path);
      FootprintsAreDisjoint(b, a, cs[i], cs[j]);
    }
    forall p ensures SameAt(ApplyAll(other, cs), a, p) <==> (SameAt(b, a, p) ==> SameAt(other, b, p)) {
      PatchedAt(b, a, cs, other, p);
    }
    SameEverywhere(ApplyAll(other, cs), a);
  }

  lemma SameEverywhere(left: Files, right: Files)
    ensures SameFiles(left, right) <==> forall p :: SameAt(left, right, p)
  {
    if forall p :: SameAt(left, right, p) {
      forall p ensures p in left.Keys <==> p in right.Keys { assert SameAt(left, right, p); }
      forall p | p in left ensures SameState(left[p], right[p]) { assert SameAt(left, right, p); }
    }
    if SameFiles(left, right) {
      forall p ensures SameAt(left, right, p) { assert p in left <==> p in right.Keys; }
    }
  }

  lemma PatchedAt(b: Files, a: Files, cs: seq<Change>, other: Files, p: string)
    requires DisjointFootprints(cs) && forall ch :: ch in cs <==> IsChange(b, a, ch)
    ensures SameAt(ApplyAll(other, cs), a, p) <==> (SameAt(b, a, p) ==> SameAt(other, b, p))
  {
    ApplyPointwise(other, cs, p);
    ChangeAt(b, a, p);
    var result := ApplyAll(other, cs);
    if ch :| IsChange(b, a, ch) && p in Footprint(ch) {
      assert ch in cs;
      var i :| 0 <= i < |cs| && cs[i] == ch;
      ChangeIsNeeded(b, a, ch, p);
      assert At(result, p) == At(a, p) && !SameAt(b, a, p) by { NeededDiffers(b, a, ch, p); }
    } else {
      assert forall i :: 0 <= i < |cs| ==> p !in Footprint(cs[i]) by {
        forall i | 0 <= i < |cs| ensures p !in Footprint(cs[i]) { assert cs[i] in cs; }
      }
      assert At(result, p) == At(other, p);
    }
  }

  lemma NeededDiffers(b: Files, a: Files, ch: Change, p: string)
    requires IsChange(b, a, ch) && p in Footprint(ch)
    ensures !SameAt(b, a, p)
  {
    if ch.kind.WasRenamed? { RenameIsCreation(b, a, ch); }
  }

  lemma NoRepeats(cs: seq<Change>)
    requires PathsAscend(cs)
    ensures forall i, j :: 0 <= i < j < |cs| ==> cs[i] != cs[j]
  {
    forall i, j | 0 <= i < j < |cs| ensures cs[i] != cs[j] {
      BeforeIsTotal(cs[i].path, cs[j].path);
    }
  }

  lemma DistinctInPermutation<T>(order: seq<T>, cs: seq<T>, i: nat, j: nat)
    requires multiset(order) == multiset(cs) && i < j < |order|
    requires forall k, l :: 0 <= k < l < |cs| ==> cs[k] != cs[l]
    ensures order[i] != order[j]
  {
    if order[i] == order[j] {
      var x := order[i];
      assert order == order[..j] + [x] + order[j + 1..];
      assert x in order[..j] by { assert order[..j][i] == x; }
      assert multiset(order)[x] >= 2;
      AtMostOnce(cs, x);
    }
  }

  lemma {:induction false} AtMostOnce<T>(cs: seq<T>, x: T)
    requires forall k, l :: 0 <= k < l < |cs| ==> cs[k] != cs[l]
    ensures multiset(cs)[x] <= 1
  {
    if cs != [] {
      var front, last := cs[..|cs| - 1], cs[|cs| - 1];
      AtMostOnce(front, x);
      assert cs == front + [last];
      if last == x {
        assert x !in front;
        assert x !in multiset(front);
      }
    }
  }

  /**
   * Each deleted path is accounted for exactly once: removed by a deletion or by the rename that
   * moves its state away.
   */
  lemma DeletedOnce(b: Files, a: Files, d: string)
    requires d in b && d !in a
    ensures exists ch :: IsChange(b, a, ch) && d in Footprint(ch) && (ch.kind.WasDeleted? || ch.kind.WasRenamed?)
    ensures forall ch, other :: IsChange(b, a, ch) && IsChange(b, a, other) && d in Footprint(ch) && d in Footprint(other) ==> ch == other
  {
    ChangeAt(b, a, d);
    forall ch, other | IsChange(b, a, ch) && IsChange(b, a, other) && d in Footprint(ch) && d in Footprint(other)
      ensures ch == other
    {
      if ch != other { FootprintsAreDisjoint(b, a, ch, other); }
    }
  }

  /** The same for a created path: a creation, or the rename that moves a state there. */
  lemma CreatedOnce(b: Files, a: Files, c: string)
    requires c in a && c !in b
    ensures exists ch :: IsChange(b, a, ch) && ch.path == c && (ch.kind.WasCreated? || ch.kind.WasRenamed?)
    ensures forall ch, other :: IsChange(b, a, ch) && IsChange(b, a, other) && c in Footprint(ch) && c in Footprint(other) ==> ch == other
  {
    ChangeAt(b, a, c);
    forall ch | IsChange(b, a, ch) && c in Footprint(ch) ensures ch.path == c { }
    forall ch, other | IsChange(b, a, ch) && IsChange(b, a, other) && c in Footprint(ch) && c in Footprint(other)
      ensures ch == other
    {
      if ch != other { FootprintsAreDisjoint(b, a, ch, other); }
    }
  }

  /** Several created files of the deleted state: never a rename, always a deletion, and the gap names it. */
  lemma AmbiguousFallsBack(b: Files, a: Files, d: string)
    requires d in b && d !in a && |Twins(b, a, d)| > 1
    ensures IsChange(b, a, Change(d, None, Some(b[d]), None, WasDeleted, false))
    ensures forall c :: c in Twins(b, a, d) ==> IsChange(b, a, Change(c, None, None, Some(a[c]), WasCreated, false))
  {
    forall c | c in Twins(b, a, d) ensures !IsRenameTarget(b, a, c) {
      if e :| IsRename(b, a, e, c) {
        assert c in Twins(b, a, e);
        TwinsOfTwins(b, a, d, e);
      }
    }
  }

  /**
   * The gap misses one ambiguity: two deleted files of one state and a single created twin give a
   * rename from the first and a plain deletion of the second, with no gap for either.
   */
  lemma SharedStateIsNotReported(b: Files, a: Files, d: string, other: string, c: string)
    requires d in b && d !in a && other in b && other !in a && Before(d, other)
    requires SameState(b[d], b[other]) && IsRename(b, a, d, c)
    ensures |Twins(b, a, d)| == 1 && |Twins(b, a, other)| == 1
    ensures IsChange(b, a, Change(other, None, Some(b[other]), None, WasDeleted, false))
  {
    TwinsOfTwins(b, a, d, other);
    if x :| IsRename(b, a, other, x) {
      assert x in Twins(b, a, other);
      RenamesAreInjective(b, a, d, other, c);
      BeforeIsTotal(d, other);
    }
  }
}
