/**
 * The causation walk that binds an event to coverage: `coverageFor` and `sufficientCoverageIds` of
 * packages/core/src/same-symbol-runtime.ts, and the walks of the gateway and of the proxy.
 * The coverage table is any table here; `WorkGraph` derives the one the code builds.
 */
module Causation {
  import opened Options

  /** Every stored event's cause; a cause may be absent from the map, and causes may form cycles. */
  type Causes = map<string, Option<string>>

  /** `Direct` coverage of an event: what the walk looks up at each step. */
  type Lookup = map<string, string>

  /** The `k`-th ancestor of an event, counting the event itself as ancestor 0. */
  function Ancestor(causes: Causes, id: string, k: nat): Option<string> {
    if k == 0 then (if id in causes then Some(id) else None)
    else
      match Ancestor(causes, id, k - 1)
      case None => None
      case Some(child) => if causes[child].Some? && causes[child].value in causes then causes[child] else None
  }

  lemma {:induction false} AncestorIsStored(causes: Causes, id: string, k: nat)
    ensures Ancestor(causes, id, k).Some? ==> Ancestor(causes, id, k).value in causes
    ensures forall j :: 0 <= j <= k && Ancestor(causes, id, k).Some? ==> Ancestor(causes, id, j).Some?
  {
    if k > 0 { AncestorIsStored(causes, id, k - 1); }
  }

  /** Once an ancestor repeats, so do all later ones. */
  lemma {:induction false} CycleAddsNothing(causes: Causes, id: string, j: nat, k: nat, m: nat)
    requires j < k <= m && Ancestor(causes, id, j) == Ancestor(causes, id, k)
    ensures exists i :: 0 <= i < k && Ancestor(causes, id, i) == Ancestor(causes, id, m)
  {
    if m == k {
    } else {
      CycleAddsNothing(causes, id, j, k, m - 1);
      var i :| 0 <= i < k && Ancestor(causes, id, i) == Ancestor(causes, id, m - 1);
      assert Ancestor(causes, id, i + 1) == Ancestor(causes, id, m);
      assert i + 1 == k ==> Ancestor(causes, id, j) == Ancestor(causes, id, m);
    }
  }

  /** The `k`-th ancestor is the nearest one with coverage, and `coverageId` is its coverage. */
  ghost predicate NearestAt(causes: Causes, lookup: Lookup, id: string, k: nat, coverageId: string) {
    && Ancestor(causes, id, k).Some? && Ancestor(causes, id, k).value in lookup
    && lookup[Ancestor(causes, id, k).value] == coverageId
    && forall j :: 0 <= j < k && Ancestor(causes, id, j).Some? ==> Ancestor(causes, id, j).value !in lookup
  }

  ghost predicate Uncovered(causes: Causes, lookup: Lookup, id: string) {
    forall k: nat :: Ancestor(causes, id, k).Some? ==> Ancestor(causes, id, k).value !in lookup
  }

  /** What every version of the walk promises. */
  ghost predicate WalkResult(causes: Causes, lookup: Lookup, id: string, found: Option<string>) {
    match found
    case Some(coverageId) => exists k :: NearestAt(causes, lookup, id, k, coverageId)
    case None => Uncovered(causes, lookup, id)
  }

  /**
   * The walk ends on every graph, cyclic ones included, with the coverage of the nearest covered
   * ancestor, and with nothing only if no ancestor at any distance is covered.
   */
  method CoverageFor(causes: Causes, lookup: Lookup, id: string) returns (found: Option<string>)
    ensures WalkResult(causes, lookup, id, found)
  {
    var visited: set<string> := {};
    var current := if id in causes then Some(id) else None;
    ghost var k: nat := 0;
    while current.Some? && current.value !in visited
      invariant current == Ancestor(causes, id, k)
      invariant visited <= causes.Keys
      invariant forall j :: 0 <= j < k ==> Ancestor(causes, id, j).Some? && Ancestor(causes, id, j).value in visited
      invariant forall x :: x in visited ==> exists j :: 0 <= j < k && Ancestor(causes, id, j) == Some(x)
      invariant forall x :: x in visited ==> x !in lookup
      decreases causes.Keys - visited
    {
      AncestorIsStored(causes, id, k);
      var event := current.value;
      if event in lookup {
        assert NearestAt(causes, lookup, id, k, lookup[event]);
        return Some(lookup[event]);
      }
      assert event in causes.Keys - visited;
      visited := visited + {event};
      current := if causes[event].Some? && causes[event].value in causes then causes[event] else None;
      k := k + 1;
    }
    forall m: nat | Ancestor(causes, id, m).Some? ensures Ancestor(causes, id, m).value !in lookup {
      if m < k {
      } else if current.None? {
        AncestorIsStored(causes, id, m);
        assert false;
      } else {
        var j :| 0 <= j < k && Ancestor(causes, id, j) == current;
        CycleAddsNothing(causes, id, j, k, m);
      }
    }
    return None;
  }

  /** The promise determines the answer. */
  lemma WalkIsUnique(causes: Causes, lookup: Lookup, id: string, one: Option<string>, other: Option<string>)
    requires WalkResult(causes, lookup, id, one) && WalkResult(causes, lookup, id, other)
    ensures one == other
  {
    if one.Some? && other.Some? {
      var j :| NearestAt(causes, lookup, id, j, one.value);
      var k :| NearestAt(causes, lookup, id, k, other.value);
      assert j == k;
    }
  }

  /** The walk as a function of the event set, for use in specifications. */
  ghost function CoverageOf(causes: Causes, lookup: Lookup, id: string): (found: Option<string>)
    ensures WalkResult(causes, lookup, id, found)
  {
    if c :| WalkResult(causes, lookup, id, Some(c)) then Some(c) else
      assert Uncovered(causes, lookup, id) by {
        if k: nat :| Ancestor(causes, id, k).Some? && Ancestor(causes, id, k).value in lookup {
          FirstCovered(causes, lookup, id, k);
        }
      }
      None
  }

  /** If any ancestor is covered, there is a nearest one. */
  lemma {:induction false} FirstCovered(causes: Causes, lookup: Lookup, id: string, k: nat)
    requires Ancestor(causes, id, k).Some? && Ancestor(causes, id, k).value in lookup
    ensures exists c :: WalkResult(causes, lookup, id, Some(c))
    decreases k
  {
    if j :| 0 <= j < k && Ancestor(causes, id, j).Some? && Ancestor(causes, id, j).value in lookup {
      FirstCovered(causes, lookup, id, j);
    } else {
      assert NearestAt(causes, lookup, id, k, lookup[Ancestor(causes, id, k).value]);
      assert WalkResult(causes, lookup, id, Some(lookup[Ancestor(causes, id, k).value]));
    }
  }

  // ---- The two lookups ----

  /** One row of the work graph's coverage table. */
  datatype CoverageEntry = CoverageEntry(coverageId: string, sufficient: bool, evidenceEventIds: set<string>)

  predicate Covers(entry: CoverageEntry, id: string) {
    entry.sufficient && id in entry.evidenceEventIds
  }

  /** The rows the gateway and the proxy filter out for one event. */
  function Matches(table: seq<CoverageEntry>, id: string): seq<CoverageEntry> {
    if table == [] then []
    else if Covers(table[0], id) then [table[0]] + Matches(table[1..], id)
    else Matches(table[1..], id)
  }

  lemma {:induction false} MatchesAre(table: seq<CoverageEntry>, id: string)
    ensures forall entry :: entry in Matches(table, id) <==> entry in table && Covers(entry, id)
    ensures Matches(table, id) == [] <==> forall entry :: entry in table ==> !Covers(entry, id)
  {
    if table != [] { MatchesAre(table[1..], id); }
  }

  /** The coverage IDs the deriver collects for one event. */
  function IdsAt(table: seq<CoverageEntry>, id: string): set<string> {
    set entry | entry in table && Covers(entry, id) :: entry.coverageId
  }

  /** Gateway and proxy: exactly one sufficient row holds the event. */
  function SingleRow(table: seq<CoverageEntry>, id: string): Option<string> {
    var rows := Matches(table, id);
    if |rows| == 1 then Some(rows[0].coverageId) else None
  }

  /** Deriver: the sufficient rows holding the event have exactly one coverage ID between them. */
  ghost predicate SingleId(table: seq<CoverageEntry>, id: string, direct: Option<string>) {
    (direct.Some? ==> IdsAt(table, id) == {direct.value}) && (direct.None? ==> forall c :: IdsAt(table, id) != {c})
  }

  /**
   * The lookups differ at an event exactly when several sufficient rows hold it and all carry one
   * coverage ID; then the deriver finds that ID and the gateway and the proxy find nothing.
   */
  lemma LookupsAgreeIff(table: seq<CoverageEntry>, id: string, direct: Option<string>)
    requires SingleId(table, id, direct)
    ensures SingleRow(table, id).Some? ==> direct == SingleRow(table, id)
    ensures direct == SingleRow(table, id) <==> !(|Matches(table, id)| >= 2 && direct.Some?)
  {
    var rows, ids := Matches(table, id), IdsAt(table, id);
    MatchesAre(table, id);
    if |rows| == 1 {
      assert rows[0] in rows;
      assert forall entry :: entry in rows ==> entry == rows[0];
      assert ids == {rows[0].coverageId};
      assert rows[0].coverageId in ids;
    } else if rows == [] {
      assert ids == {};
      assert forall c: string :: c in {c};
    }
  }

  /** No two sufficient rows share a coverage ID. */
  ghost predicate DistinctIds(table: seq<CoverageEntry>) {
    forall i, j :: 0 <= i < j < |table| && table[i].sufficient && table[j].sufficient ==> table[i].coverageId != table[j].coverageId
  }

  lemma {:induction false} DistinctIdsGiveOneRow(table: seq<CoverageEntry>, id: string, c: string)
    requires DistinctIds(table) && IdsAt(table, id) == {c}
    ensures |Matches(table, id)| == 1
    decreases |table|
  {
    assert c in IdsAt(table, id);
    var entry :| entry in table && Covers(entry, id) && entry.coverageId == c;
    assert table != [];
    if Covers(table[0], id) {
      assert forall e :: e in table && Covers(e, id) ==> e.coverageId in IdsAt(table, id);
      assert forall e :: e in table[1..] ==> exists j :: 0 < j < |table| && table[j] == e;
      MatchesAre(table[1..], id);
    } else {
      assert entry in table[1..];
      assert IdsAt(table[1..], id) == IdsAt(table, id) by {
        forall x | x in IdsAt(table, id) ensures x in IdsAt(table[1..], id) {
          var e :| e in table && Covers(e, id) && e.coverageId == x;
          assert e in table[1..];
        }
      }
      DistinctIdsGiveOneRow(table[1..], id, c);
    }
  }

  ghost predicate IsRowLookup(table: seq<CoverageEntry>, lookup: Lookup) {
    forall id :: (id in lookup <==> SingleRow(table, id).Some?) && (id in lookup ==> SingleRow(table, id) == Some(lookup[id]))
  }

  ghost predicate IsIdLookup(table: seq<CoverageEntry>, lookup: Lookup) {
    forall id :: (id in lookup ==> IdsAt(table, id) == {lookup[id]}) && (id !in lookup ==> forall c :: IdsAt(table, id) != {c})
  }

  /**
   * All three walks answer alike, from every event of every graph, exactly when no event is held by
   * several sufficient rows of one coverage ID.
   */
  lemma WalksAgreeIff(table: seq<CoverageEntry>, rows: Lookup, ids: Lookup)
    requires IsRowLookup(table, rows) && IsIdLookup(table, ids)
    ensures (forall causes, id :: CoverageOf(causes, rows, id) == CoverageOf(causes, ids, id))
            <==> forall id :: id in ids ==> |Matches(table, id)| < 2
  {
    forall x
      ensures x in rows ==> x in ids && rows[x] == ids[x]
      ensures x in ids && x !in rows ==> |Matches(table, x)| >= 2
      ensures x in rows ==> |Matches(table, x)| < 2
    {
      var direct := if x in ids then Some(ids[x]) else None;
      assert SingleId(table, x, direct);
      LookupsAgreeIff(table, x, direct);
    }
    if id :| id in ids && id !in rows {
      var causes: Causes := map[id := None];
      assert NearestAt(causes, ids, id, 0, ids[id]);
      WalkIsUnique(causes, ids, id, Some(ids[id]), CoverageOf(causes, ids, id));
      assert forall k: nat :: Ancestor(causes, id, k).Some? ==> Ancestor(causes, id, k).value !in rows;
      WalkIsUnique(causes, rows, id, None, CoverageOf(causes, rows, id));
    } else {
      assert rows == ids;
    }
  }

  /** In particular they agree on a table whose sufficient rows have distinct coverage IDs. */
  lemma WalksAgree(causes: Causes, table: seq<CoverageEntry>, rows: Lookup, ids: Lookup, id: string)
    requires DistinctIds(table) && IsRowLookup(table, rows) && IsIdLookup(table, ids)
    ensures CoverageOf(causes, rows, id) == CoverageOf(causes, ids, id)
  {
    forall x | x in ids ensures |Matches(table, x)| < 2 {
      DistinctIdsGiveOneRow(table, x, ids[x]);
    }
    WalksAgreeIff(table, rows, ids);
  }

  /**
   * On an arbitrary table with a shared coverage ID they part: of two events, the child is held by two rows of one ID, its
   * cause by a row of another. The deriver binds the child, the gateway climbs to the cause.
   */
  lemma SharedIdsMakeWalksDiffer()
    ensures exists causes, table, rows, ids ::
              IsRowLookup(table, rows) && IsIdLookup(table, ids)
              && CoverageOf(causes, ids, "child") == Some("near") && CoverageOf(causes, rows, "child") == Some("far")
  {
    var causes: Causes := map["child" := Some("cause"), "cause" := None];
    var near, far := CoverageEntry("near", true, {"child"}), CoverageEntry("far", true, {"cause"});
    var rows: Lookup := map["cause" := "far"];
    var ids: Lookup := map["child" := "near", "cause" := "far"];
    assert Ancestor(causes, "child", 0) == Some("child");
    assert Ancestor(causes, "child", 1) == Some("cause");
    assert NearestAt(causes, ids, "child", 0, "near");
    assert NearestAt(causes, rows, "child", 1, "far");
    WalkIsUnique(causes, ids, "child", Some("near"), CoverageOf(causes, ids, "child"));
    WalkIsUnique(causes, rows, "child", Some("far"), CoverageOf(causes, rows, "child"));
    SharedTable(near, far);
    hide CoverageOf, IsRowLookup, IsIdLookup;
    assert IsRowLookup([near, near, far], rows) && IsIdLookup([near, near, far], ids);
  }

  lemma SharedTable(near: CoverageEntry, far: CoverageEntry)
    requires near == CoverageEntry("near", true, {"child"}) && far == CoverageEntry("far", true, {"cause"})
    ensures IsRowLookup([near, near, far], map["cause" := "far"])
    ensures IsIdLookup([near, near, far], map["child" := "near", "cause" := "far"])
  {
    var table := [near, near, far];
    forall id ensures Matches(table, id) == (if id == "child" then [near, near] else if id == "cause" then [far] else []) {
      assert table[1..] == [near, far] && table[1..][1..] == [far] && [near, far][1..] == [far];
      assert Matches([far], id) == if id == "cause" then [far] else [];
      assert Matches([near, far], id) == (if id == "child" then [near] else []) + Matches([far], id);
    }
    forall id ensures IdsAt(table, id) == (if id == "child" then {"near"} else if id == "cause" then {"far"} else {}) {
      assert near in table && far in table;
    }
    assert forall c: string :: c in {c};
  }

  function Collected(matches: map<string, set<string>>, id: string): set<string> {
    if id in matches then matches[id] else {}
  }

  method CollectRow(matches: map<string, set<string>>, entry: CoverageEntry) returns (more: map<string, set<string>>)
    ensures forall id :: id in entry.evidenceEventIds ==> Collected(more, id) == Collected(matches, id) + {entry.coverageId}
    ensures forall id :: id !in entry.evidenceEventIds ==> Collected(more, id) == Collected(matches, id)
  {
    more := matches;
    var rest := entry.evidenceEventIds;
    while rest != {}
      invariant rest <= entry.evidenceEventIds
      invariant forall id :: id in entry.evidenceEventIds && id !in rest ==> Collected(more, id) == Collected(matches, id) + {entry.coverageId}
      invariant forall id :: id !in entry.evidenceEventIds || id in rest ==> Collected(more, id) == Collected(matches, id)
      decreases |rest|
    {
      var id :| id in rest;
      rest := rest - {id};
      var ids := Collected(more, id) + {entry.coverageId};
      more := more[id := ids];
    }
  }

  lemma IdsGrow(table: seq<CoverageEntry>, i: nat)
    requires i < |table|
    ensures forall id :: IdsAt(table[..i + 1], id) == IdsAt(table[..i], id) + if Covers(table[i], id) then {table[i].coverageId} else {}
  {
    assert table[..i + 1] == table[..i] + [table[i]];
    forall id ensures IdsAt(table[..i + 1], id) == IdsAt(table[..i], id) + if Covers(table[i], id) then {table[i].coverageId} else {} {
      assert forall e :: e in table[..i + 1] <==> e in table[..i] || e == table[i];
    }
  }

  /** `sufficientCoverageIds`: one pass collecting coverage IDs per event, then the events with a single one. */
  method SufficientCoverageIds(table: seq<CoverageEntry>) returns (lookup: Lookup)
    ensures IsIdLookup(table, lookup)
  {
    var matches: map<string, set<string>> := map[];
    for i := 0 to |table|
      invariant forall id :: Collected(matches, id) == IdsAt(table[..i], id)
    {
      IdsGrow(table, i);
      if table[i].sufficient { matches := CollectRow(matches, table[i]); }
    }
    assert table[..|table|] == table;
    lookup := map id | id in matches && |matches[id]| == 1 :: TheOnly(matches[id]);
    forall id ensures (id in lookup ==> IdsAt(table, id) == {lookup[id]}) && (id !in lookup ==> forall c :: IdsAt(table, id) != {c}) {
      assert Collected(matches, id) == IdsAt(table, id);
      assert forall c: string :: |{c}| == 1 && c in {c};
    }
  }

  function TheOnly(s: set<string>): (x: string)
    requires |s| == 1
    ensures s == {x}
  {
    OnlyElement(s);
    var x :| x in s && s == {x};
    x
  }

  lemma OnlyElement(s: set<string>)
    requires |s| == 1
    ensures exists x :: x in s && s == {x}
    ensures forall x, y :: x in s && y in s ==> x == y
  {
    var x :| x in s;
    assert |s - {x}| == 0;
    assert s == {x};
  }
}
