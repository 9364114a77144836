/** The loops of packages/core/src/same-symbol-runtime.ts and detector-runner.ts over unordered, repeated events. */
module SameSymbolRuntime {
  import opened Options
  import opened Paths
  import opened Causation
  import opened SameSymbol
  import opened Replay
  import WorkGraph

  method HasConflictingDuplicateIds(events: seq<Event>) returns (conflict: bool)
    ensures conflict <==> !NoConflict(Elements(events))
  {
    var payloads: map<string, Event> := map[];
    for i := 0 to |events|
      invariant forall k :: 0 <= k < i ==> events[k].eventId in payloads && payloads[events[k].eventId] == events[k]
      invariant forall id :: id in payloads ==> payloads[id] in events
      invariant forall id :: id in payloads ==> payloads[id].eventId == id
    {
      var event := events[i];
      if event.eventId in payloads && payloads[event.eventId] != event { return true; }
      payloads := payloads[event.eventId := event];
    }
    return false;
  }

  // ---- Evidence by target ----

  /** The sufficient V3 assertions about a target, in event order, repetitions included. */
  function Group(events: seq<Event>, target: string): seq<Event> {
    if events == [] then []
    else
      var last := events[|events| - 1];
      Group(events[..|events| - 1], target) + if IsSufficient(last) && last.body.evidence.targetEventId == target then [last] else []
  }

  lemma {:induction false} GroupIsDerivedAt(events: seq<Event>, target: string)
    ensures Elements(Group(events, target)) == DerivedAt(Elements(events), target)
  {
    if events != [] {
      var front, last := events[..|events| - 1], events[|events| - 1];
      GroupIsDerivedAt(front, target);
      assert events == front + [last];
      assert Elements(events) == Elements(front) + {last};
      var more := if IsSufficient(last) && last.body.evidence.targetEventId == target then [last] else [];
      assert Elements(Group(front, target) + more) == Elements(Group(front, target)) + Elements(more);
    }
  }

  /** `m` represents its target; `exactOne` also asks that it be the only assertion, counting repetitions. */
  ghost predicate Selected(events: seq<Event>, exactOne: bool, target: string, m: Event) {
    IsChosen(Elements(Group(events, target)), m) && (exactOne ==> |Group(events, target)| == 1)
  }

  method PickDerived(matches: seq<Event>, exactOne: bool) returns (picked: Option<Event>)
    requires forall k :: 0 <= k < |matches| ==> IsSufficient(matches[k])
    ensures picked.Some? ==> IsChosen(Elements(matches), picked.value) && (exactOne ==> |matches| == 1)
    ensures picked.None? ==> forall m :: !(IsChosen(Elements(matches), m) && (exactOne ==> |matches| == 1))
  {
    if matches == [] || (exactOne && |matches| != 1) { return None; }
    var least := matches[0];
    for i := 1 to |matches|
      invariant least in matches[..i] && IsSufficient(least)
      invariant forall k :: 0 <= k < i ==> matches[k].body.evidence == least.body.evidence
      invariant forall k :: 0 <= k < i ==> matches[k].eventId == least.eventId || Before(least.eventId, matches[k].eventId)
    {
      if matches[i].body.evidence != least.body.evidence {
        assert matches[i] in matches && least in matches;
        return None;
      }
      BeforeIsTotal(least.eventId, matches[i].eventId);
      if Before(matches[i].eventId, least.eventId) {
        forall k | 0 <= k < i && matches[k].eventId != least.eventId ensures Before(matches[i].eventId, matches[k].eventId) {
          BeforeIsTransitive(matches[i].eventId, least.eventId, matches[k].eventId);
        }
        least := matches[i];
      }
    }
    return Some(least);
  }

  lemma {:induction false} GroupIsSufficient(events: seq<Event>, target: string)
    ensures forall k :: 0 <= k < |Group(events, target)| ==> IsSufficient(Group(events, target)[k])
  {
    if events != [] { GroupIsSufficient(events[..|events| - 1], target); }
  }

  method GroupByTarget(events: seq<Event>) returns (grouped: map<string, seq<Event>>)
    ensures forall target :: At(grouped, target) == Group(events, target)
  {
    grouped := map[];
    for i := 0 to |events|
      invariant forall target :: At(grouped, target) == Group(events[..i], target)
    {
      var event := events[i];
      assert events[..i + 1][..i] == events[..i];
      if IsSufficient(event) {
        var target := event.body.evidence.targetEventId;
        grouped := grouped[target := At(grouped, target) + [event]];
      }
    }
    assert events[..|events|] == events;
  }

  /** `equivalentDerivedByTarget`: a target is mapped exactly when its assertions select one event. */
  method EquivalentDerivedByTarget(events: seq<Event>, exactOne: bool) returns (result: map<string, Event>)
    ensures forall target :: target in result ==> Selected(events, exactOne, target, result[target])
    ensures forall target, m :: Selected(events, exactOne, target, m) ==> target in result
  {
    hide IsChosen;
    var grouped := GroupByTarget(events);
    result := map[];
    var targets := grouped.Keys;
    while targets != {}
      invariant targets <= grouped.Keys
      invariant forall target :: target in result ==> target in grouped && target !in targets && Selected(events, exactOne, target, result[target])
      invariant forall target, m :: target in grouped && target !in targets && Selected(events, exactOne, target, m) ==> target in result
      decreases |targets|
    {
      var target :| target in targets;
      targets := targets - {target};
      GroupIsSufficient(events, target);
      assert grouped[target] == At(grouped, target);
      var picked := PickDerived(grouped[target], exactOne);
      if picked.Some? { result := result[target := picked.value]; }
    }
    forall target, m | Selected(events, exactOne, target, m) ensures target in grouped {
      EmptyGroupChoosesNothing(m);
    }
  }

  lemma EmptyGroupChoosesNothing(m: Event)
    ensures !IsChosen(Elements([]), m)
  {
  }

  /** Without `exactOne` and without conflicting IDs the selection is a function of the event set. */
  lemma SelectionIsMetadata(events: seq<Event>, result: map<string, Event>)
    requires NoConflict(Elements(events))
    requires forall target :: target in result ==> Selected(events, false, target, result[target])
    requires forall target, m :: Selected(events, false, target, m) ==> target in result
    ensures result == MetadataMap(Elements(events))
  {
    forall target
      ensures target in result <==> target in MetadataMap(Elements(events))
      ensures target in result ==> result[target] == MetadataMap(Elements(events))[target]
    {
      GroupIsDerivedAt(events, target);
      MetadataOf(Elements(events), target);
      var group := DerivedAt(Elements(events), target);
      if target in MetadataMap(Elements(events)) {
        assert Selected(events, false, target, MetadataMap(Elements(events))[target]);
      }
      if target in result { ChosenIsUnique(group, result[target], Metadata(Elements(events), target).value); }
    }
  }

  lemma {:induction false} GroupCounts(events: seq<Event>, target: string, e: Event)
    ensures multiset(Group(events, target))[e]
            == if IsSufficient(e) && e.body.evidence.targetEventId == target then multiset(events)[e] else 0
  {
    if events != [] {
      assert events == events[..|events| - 1] + [events[|events| - 1]];
      GroupCounts(events[..|events| - 1], target, e);
    }
  }

  /** Contract evidence, which asks for exactly one match, survives any permutation of the events. */
  lemma SelectionIgnoresOrder(events: seq<Event>, others: seq<Event>, exactOne: bool, target: string, m: Event)
    requires multiset(events) == multiset(others)
    ensures Selected(events, exactOne, target, m) <==> Selected(others, exactOne, target, m)
  {
    var one, other := Group(events, target), Group(others, target);
    forall e ensures multiset(one)[e] == multiset(other)[e] {
      GroupCounts(events, target, e);
      GroupCounts(others, target, e);
    }
    assert multiset(one) == multiset(other);
    assert |multiset(one)| == |one| && |multiset(other)| == |other|;
    forall e ensures e in one <==> e in other {
      assert e in one <==> e in multiset(one);
    }
    assert Elements(one) == Elements(other);
  }

  /** The selection by itself does not survive repetition: recording the selected event once more deselects the target. */
  lemma RepetitionDeselects(events: seq<Event>, target: string, m: Event, other: Event)
    requires Selected(events, true, target, m)
    ensures !Selected(events + [m], true, target, other)
    ensures forall x :: Selected(events + [m], false, target, x) <==> Selected(events, false, target, x)
  {
    GroupIsDerivedAt(events, target);
    assert m in Elements(Group(events, target)) && m in DerivedAt(Elements(events), target);
    assert (events + [m])[..|events|] == events;
    assert Group(events + [m], target) == Group(events, target) + [m];
    assert Elements(Group(events, target) + [m]) == Elements(Group(events, target));
  }

  // ---- Same-symbol evidence ----

  method Coverage(v: View, e: Event) returns (found: Option<string>)
    ensures found == Covered(v, e)
  {
    found := CoverageFor(CausesOf(v.byId), v.lookup, e.eventId);
    WalkIsUnique(CausesOf(v.byId), v.lookup, e.eventId, found, Covered(v, e));
  }

  method AcceptObservation(v: View, e: Event) returns (ok: bool)
    ensures ok <==> Accepted(v, e)
  {
    hide Covered;
    if !e.body.Concurrency? || !e.body.version3 { return false; }
    var o := e.body.observation;
    var own := Coverage(v, e);
    if own != Some(o.coverageId) || e.source.Core? { return false; }
    if !Consistent(v, o) { return false; }
    var first := Coverage(v, v.metadata[o.firstChange]);
    var second := Coverage(v, v.metadata[o.secondChange]);
    return first.Some? && second.Some?;
  }

  method PickAssertion(assertions: seq<Assertion>) returns (picked: Option<Assertion>)
    ensures picked.Some? ==> IsObserved(Elements(assertions), picked.value)
    ensures picked.None? ==> forall a :: !IsObserved(Elements(assertions), a)
  {
    if assertions == [] { return None; }
    var least := assertions[0];
    for i := 1 to |assertions|
      invariant least in assertions[..i]
      invariant forall k :: 0 <= k < i ==> KeyOf(assertions[k]) == KeyOf(least)
      invariant forall k :: 0 <= k < i ==> assertions[k].eventId == least.eventId || Before(least.eventId, assertions[k].eventId)
    {
      if KeyOf(assertions[i]) != KeyOf(least) {
        assert assertions[i] in assertions && least in assertions;
        return None;
      }
      BeforeIsTotal(least.eventId, assertions[i].eventId);
      if Before(assertions[i].eventId, least.eventId) {
        forall k | 0 <= k < i && assertions[k].eventId != least.eventId ensures Before(assertions[i].eventId, assertions[k].eventId) {
          BeforeIsTransitive(assertions[i].eventId, least.eventId, assertions[k].eventId);
        }
        least := assertions[i];
      }
    }
    return Some(least);
  }

  lemma AssertionsGrow(events: set<Event>, e: Event, v: View, id: string)
    ensures AssertionsAt(events + {e}, v, id)
            == AssertionsAt(events, v, id) + if Accepted(v, e) && Names(e.body.observation, id) then {AssertionAt(e, id)} else {}
  {
    hide Accepted, Consistent, Covered;
    ObservationsOnly(v);
  }

  lemma ObservationsOnly(v: View)
    ensures forall e :: Accepted(v, e) ==> e.body.Concurrency? && e.body.observation.firstChange != e.body.observation.secondChange
  {
  }

  /** The assertions the accepted observations make about each change. */
  method CollectAssertions(events: seq<Event>, v: View) returns (candidates: map<string, seq<Assertion>>)
    ensures forall id :: Elements(At(candidates, id)) == AssertionsAt(Elements(events), v, id)
  {
    hide Accepted, AssertionsAt;
    candidates := map[];
    assert forall id :: AssertionsAt({}, v, id) == {} by { NoEventsNoAssertions(v); }
    assert Elements(events[..0]) == {};
    for i := 0 to |events|
      invariant forall id :: Elements(At(candidates, id)) == AssertionsAt(Elements(events[..i]), v, id)
    {
      var e := events[i];
      var ok := AcceptObservation(v, e);
      ElementsOfPrefix(events, i);
      forall id { AssertionsGrow(Elements(events[..i]), e, v, id); }
      if ok {
        ObservationsOnly(v);
        var first, second := e.body.observation.firstChange, e.body.observation.secondChange;
        ElementsOfAppend(At(candidates, first), AssertionAt(e, first));
        ElementsOfAppend(At(candidates, second), AssertionAt(e, second));
        candidates := candidates[first := At(candidates, first) + [AssertionAt(e, first)]];
        candidates := candidates[second := At(candidates, second) + [AssertionAt(e, second)]];
      }
    }
    assert events[..|events|] == events;
  }

  lemma NoEventsNoAssertions(v: View)
    ensures forall id :: AssertionsAt({}, v, id) == {}
  {
  }

  ghost predicate ObservedMap(events: set<Event>, v: View, concurrency: map<string, Assertion>) {
    forall id :: (id in concurrency <==> Observed(events, v, id).Some?) && (id in concurrency ==> Observed(events, v, id) == Some(concurrency[id]))
  }

  lemma ObservedBy(events: set<Event>, v: View, id: string, picked: Option<Assertion>)
    requires NoConflict(events)
    requires picked.Some? ==> IsObserved(AssertionsAt(events, v, id), picked.value)
    requires picked.None? ==> forall a :: !IsObserved(AssertionsAt(events, v, id), a)
    ensures Observed(events, v, id) == picked
  {
    hide AssertionsAt;
    AssertionsHaveDistinctIds(events, v, id);
    if picked.Some? { ObservedIsUnique(AssertionsAt(events, v, id), picked.value, Observed(events, v, id).value); }
  }

  method ChooseObserved(events: seq<Event>, v: View) returns (concurrency: map<string, Assertion>)
    requires NoConflict(Elements(events))
    ensures ObservedMap(Elements(events), v, concurrency)
  {
    hide AssertionsAt, NoConflict, Observed, IsObserved;
    var candidates := CollectAssertions(events, v);
    concurrency := map[];
    var ids := candidates.Keys;
    while ids != {}
      invariant ids <= candidates.Keys
      invariant forall id :: id in concurrency ==> id in candidates && id !in ids
      invariant forall id :: id in candidates && id !in ids ==>
                  (id in concurrency <==> Observed(Elements(events), v, id).Some?)
                  && (id in concurrency ==> Observed(Elements(events), v, id) == Some(concurrency[id]))
      decreases |ids|
    {
      var id :| id in ids;
      ids := ids - {id};
      var picked := PickAssertion(candidates[id]);
      assert candidates[id] == At(candidates, id);
      ObservedBy(Elements(events), v, id, picked);
      if picked.Some? { concurrency := concurrency[id := picked.value]; }
    }
    forall id | id !in candidates ensures Observed(Elements(events), v, id) == None {
      assert AssertionsAt(Elements(events), v, id) == Elements(At(candidates, id)) == {};
      NothingObserved();
      ObservedBy(Elements(events), v, id, None);
    }
  }

  lemma NothingObserved()
    ensures forall a :: !IsObserved({}, a)
  {
  }

  /** The evidence record of one event, if it has one. */
  ghost function EvidenceAt(events: set<Event>, v: View, e: Event): Option<Change> {
    if IsEvidence(events, v, e) then Some(ChangeOf(e, Covered(v, e).value, Observed(events, v, e.eventId).value)) else None
  }

  method EvidenceFor(ghost events: set<Event>, v: View, concurrency: map<string, Assertion>, e: Event) returns (change: Option<Change>)
    requires ObservedMap(events, v, concurrency)
    ensures change == EvidenceAt(events, v, e)
  {
    hide Covered, Observed, SymbolProof;
    if !e.body.SymbolChanged? || !e.body.symbolKind || e.eventId !in v.metadata || e.eventId !in concurrency { return None; }
    var coverageId := Coverage(v, e);
    var derived := Coverage(v, v.metadata[e.eventId]);
    if coverageId.None? || derived.None? || !SymbolProof(v.byId, v.metadata[e.eventId], concurrency[e.eventId].target) { return None; }
    return Some(ChangeOf(e, coverageId.value, concurrency[e.eventId]));
  }

  /** In order of event IDs; equal IDs keep their order. */
  ghost predicate Ordered(changes: seq<Change>) {
    forall i, j :: 0 <= i < j < |changes| ==> !Before(changes[j].eventId, changes[i].eventId)
  }

  method SortById(changes: seq<Change>) returns (sorted: seq<Change>)
    ensures Ordered(sorted) && multiset(sorted) == multiset(changes)
  {
    hide Ordered;
    sorted := [];
    assert Ordered([]) by { NothingIsOrdered(); }
    for i := 0 to |changes|
      invariant Ordered(sorted) && multiset(sorted) == multiset(changes[..i])
    {
      var k := |sorted|;
      while k > 0 && Before(changes[i].eventId, sorted[k - 1].eventId)
        invariant 0 <= k <= |sorted|
        invariant forall j :: k <= j < |sorted| ==> Before(changes[i].eventId, sorted[j].eventId)
      {
        k := k - 1;
      }
      assert changes[..i + 1] == changes[..i] + [changes[i]];
      InsertKeepsElements(sorted, k, changes[i]);
      InsertKeepsOrder(sorted, k, changes[i]);
      sorted := sorted[..k] + [changes[i]] + sorted[k..];
    }
    assert changes[..|changes|] == changes;
  }

  lemma NothingIsOrdered()
    ensures Ordered([])
  {
  }

  lemma InsertKeepsElements(sorted: seq<Change>, k: nat, c: Change)
    requires k <= |sorted|
    ensures multiset(sorted[..k] + [c] + sorted[k..]) == multiset(sorted + [c])
  {
    assert sorted == sorted[..k] + sorted[k..];
  }

  lemma InsertKeepsOrder(sorted: seq<Change>, k: nat, c: Change)
    requires Ordered(sorted) && k <= |sorted|
    requires k > 0 ==> !Before(c.eventId, sorted[k - 1].eventId)
    requires forall j :: k <= j < |sorted| ==> Before(c.eventId, sorted[j].eventId)
    ensures Ordered(sorted[..k] + [c] + sorted[k..])
  {
    forall j | 0 <= j < k ensures !Before(c.eventId, sorted[j].eventId) {
      BeforeIsTotal(sorted[j].eventId, sorted[k - 1].eventId);
      BeforeIsTotal(c.eventId, sorted[k - 1].eventId);
      if Before(c.eventId, sorted[j].eventId) && sorted[j].eventId != sorted[k - 1].eventId {
        BeforeIsTransitive(c.eventId, sorted[j].eventId, sorted[k - 1].eventId);
      }
    }
    forall j | k <= j < |sorted| ensures !Before(sorted[j].eventId, c.eventId) {
      BeforeIsTotal(c.eventId, sorted[j].eventId);
    }
  }

  /** `deriveSameSymbolEvidence`: exactly the evidence of the event set under the coverage lookup of the event list. */
  method DeriveSameSymbolEvidence(events: seq<Event>, valid: seq<Event> -> bool, rowDigest: WorkGraph.Digest) returns (result: seq<Change>)
    ensures Elements(result) == EvidenceOf(Elements(events), WorkGraph.LookupOf(events, valid, rowDigest))
    ensures Ordered(result)
  {
    hide NoConflict, ObservedMap, EvidenceOf, EvidenceAt, ViewOf, ById, MetadataMap, Selected, WorkGraph.LookupOf;
    var conflict := HasConflictingDuplicateIds(events);
    if conflict {
      ConflictingYieldNothing(Elements(events), WorkGraph.LookupOf(events, valid, rowDigest));
      return [];
    }
    var lookup := WorkGraph.CoverageLookup(events, valid, rowDigest);
    var byId := MapById(events);
    var metadata := EquivalentDerivedByTarget(events, false);
    SelectionIsMetadata(events, metadata);
    var v := View(byId, metadata, lookup);
    ViewIs(Elements(events), lookup);
    var concurrency := ChooseObserved(events, v);
    var found := CollectEvidence(events, v, concurrency);
    result := SortById(found);
    EvidenceByElement(events, lookup);
    forall c ensures c in Elements(result) <==> c in EvidenceOf(Elements(events), lookup) {
      assert c in result <==> c in multiset(result);
      assert c in found <==> c in multiset(found);
    }
  }

  method CollectEvidence(events: seq<Event>, v: View, concurrency: map<string, Assertion>) returns (found: seq<Change>)
    requires ObservedMap(Elements(events), v, concurrency)
    ensures forall c :: c in found <==> exists k :: 0 <= k < |events| && EvidenceAt(Elements(events), v, events[k]) == Some(c)
  {
    hide ObservedMap, EvidenceAt, Elements;
    found := [];
    for i := 0 to |events|
      invariant forall c :: c in found <==> exists k :: 0 <= k < i && EvidenceAt(Elements(events), v, events[k]) == Some(c)
    {
      var change := EvidenceFor(Elements(events), v, concurrency, events[i]);
      if change.Some? { found := found + [change.value]; }
    }
  }

  lemma ConflictingYieldNothing(events: set<Event>, lookup: Lookup)
    requires !NoConflict(events)
    ensures EvidenceOf(events, lookup) == {}
  {
  }

  lemma ViewIs(events: set<Event>, lookup: Lookup)
    requires NoConflict(events)
    ensures ViewOf(events, lookup) == View(ById(events), MetadataMap(events), lookup)
  {
  }

  lemma EvidenceByElement(events: seq<Event>, lookup: Lookup)
    requires NoConflict(Elements(events))
    ensures var all, v := Elements(events), ViewOf(Elements(events), lookup);
            forall c :: c in EvidenceOf(all, lookup) <==> exists k :: 0 <= k < |events| && EvidenceAt(all, v, events[k]) == Some(c)
  {
    hide IsEvidence, Covered, Observed, MetadataMap;
    var all, v := Elements(events), ViewOf(Elements(events), lookup);
    EvidenceParts(all, v);
    forall c | c in EvidenceOf(all, lookup) ensures exists k :: 0 <= k < |events| && EvidenceAt(all, v, events[k]) == Some(c) {
      var e :| e in all && IsEvidence(all, v, e) && c == ChangeOf(e, Covered(v, e).value, Observed(all, v, e.eventId).value);
      var k :| 0 <= k < |events| && events[k] == e;
      assert EvidenceAt(all, v, events[k]) == Some(c);
    }
  }

  lemma EvidenceParts(all: set<Event>, v: View)
    ensures forall e :: IsEvidence(all, v, e) ==> e.body.SymbolChanged? && Covered(v, e).Some? && Observed(all, v, e.eventId).Some?
  {
  }

  // ---- The detector ----

  /** `stableFindings`: the last candidate of each ID, an ID being a digest of the finding's evidence. */
  method StableFindings(candidates: seq<Finding>, digest: FindingEvidence -> string) returns (findings: seq<Finding>)
    requires Injective(digest)
    ensures ByDigest(findings, digest)
    ensures forall f :: f in findings ==> f in candidates
    ensures forall f :: f in candidates ==> exists g :: g in findings && g.evidence == f.evidence
  {
    var byId: map<string, Finding> := map[];
    for i := 0 to |candidates|
      invariant forall id :: id in byId ==> byId[id] in candidates && digest(byId[id].evidence) == id
      invariant forall k :: 0 <= k < i ==> digest(candidates[k].evidence) in byId
    {
      byId := byId[digest(candidates[i].evidence) := candidates[i]];
    }
    var ids := SortSet(byId.Keys);
    assert forall i :: 0 <= i < |ids| ==> ids[i] in ids;
    findings := seq(|ids|, i requires 0 <= i < |ids| => byId[ids[i]]);
    forall f | f in candidates ensures exists g :: g in findings && g.evidence == f.evidence {
      var id := digest(f.evidence);
      assert id in ids;
      var i :| 0 <= i < |ids| && ids[i] == id;
      assert findings[i] in findings && digest(findings[i].evidence) == id;
    }
  }

  ghost predicate Injective(digest: FindingEvidence -> string) {
    forall a, b :: digest(a) == digest(b) ==> a == b
  }

  /** In strictly ascending order of finding IDs. */
  ghost predicate ByDigest(findings: seq<Finding>, digest: FindingEvidence -> string) {
    forall i, j :: 0 <= i < j < |findings| ==> Before(digest(findings[i].evidence), digest(findings[j].evidence))
  }

  /** No change appears with two different records. */
  ghost predicate Unambiguous(changes: set<Change>) {
    forall a, b :: a in changes && b in changes && a.eventId == b.eventId ==> a == b
  }

  /** `runSameSymbolDetector`: on unambiguous evidence, exactly the findings of the evidence set, one per ID. */
  method RunSameSymbolDetector(evidence: seq<Change>, digest: FindingEvidence -> string) returns (findings: seq<Finding>)
    requires Injective(digest)
    ensures ByDigest(findings, digest)
    ensures Unambiguous(Elements(evidence)) ==> forall f :: f in findings ==> f in FindingsOf(Elements(evidence))
    ensures Unambiguous(Elements(evidence)) ==>
              forall f :: f in FindingsOf(Elements(evidence)) ==> exists g :: g in findings && g.evidence == f.evidence
  {
    hide Overlap, FindingsOf, Unambiguous;
    var ordered := SortById(evidence);
    var candidates := CollectCandidates(ordered);
    if Unambiguous(Elements(evidence)) { PairsAreFindings(evidence, ordered, candidates); }
    findings := StableFindings(candidates, digest);
  }

  /** Some pair the loops have passed, with `index` and `stop` where they stand, has this finding. */
  ghost predicate FoundSoFar(ordered: seq<Change>, index: nat, stop: nat, f: Finding) {
    exists i, j :: 0 <= i < j < |ordered| && (i < index || (i == index && j < stop)) && Overlap(ordered[i], ordered[j]) == Some(f)
  }

  lemma FoundNext(ordered: seq<Change>, index: nat, stop: nat, f: Finding)
    requires index < stop < |ordered|
    ensures FoundSoFar(ordered, index, stop + 1, f) <==> FoundSoFar(ordered, index, stop, f) || Overlap(ordered[index], ordered[stop]) == Some(f)
  {
    hide Overlap;
  }

  lemma FoundNextRow(ordered: seq<Change>, index: nat, f: Finding)
    requires index < |ordered|
    ensures FoundSoFar(ordered, index, |ordered|, f) <==> FoundSoFar(ordered, index + 1, index + 2, f)
  {
    hide Overlap;
  }

  method CollectCandidates(ordered: seq<Change>) returns (candidates: seq<Finding>)
    ensures forall f :: f in candidates <==> exists i, j :: 0 <= i < j < |ordered| && Overlap(ordered[i], ordered[j]) == Some(f)
  {
    hide Overlap;
    candidates := [];
    for index := 0 to |ordered|
      invariant forall f :: f in candidates <==> FoundSoFar(ordered, index, index + 1, f)
    {
      for candidate := index + 1 to |ordered|
        invariant forall f :: f in candidates <==> FoundSoFar(ordered, index, candidate, f)
      {
        hide FoundSoFar;
        var finding := Overlap(ordered[index], ordered[candidate]);
        forall f { FoundNext(ordered, index, candidate, f); }
        if finding.Some? { candidates := candidates + [finding.value]; }
      }
      forall f { FoundNextRow(ordered, index, f); }
    }
  }

  lemma PairsAreFindings(evidence: seq<Change>, ordered: seq<Change>, candidates: seq<Finding>)
    requires Unambiguous(Elements(evidence)) && Ordered(ordered) && multiset(ordered) == multiset(evidence)
    requires forall f :: f in candidates <==> exists i, j :: 0 <= i < j < |ordered| && Overlap(ordered[i], ordered[j]) == Some(f)
    ensures forall f :: f in candidates <==> f in FindingsOf(Elements(evidence))
  {
    hide Overlap, Ordered, Unambiguous, FindingsOf;
    var changes := Elements(evidence);
    forall c ensures c in ordered <==> c in changes {
      assert c in ordered <==> c in multiset(ordered);
      assert c in evidence <==> c in multiset(evidence);
    }
    forall f | f in candidates ensures f in FindingsOf(changes) {
      var i, j :| 0 <= i < j < |ordered| && Overlap(ordered[i], ordered[j]) == Some(f);
      assert ordered[i] in ordered && ordered[j] in ordered;
      PairIsFinding(changes, ordered, i, j);
    }
    forall f | f in FindingsOf(changes) ensures f in candidates {
      var i, j := FindingIsPair(changes, ordered, f);
    }
  }

  lemma PairIsFinding(changes: set<Change>, ordered: seq<Change>, i: nat, j: nat)
    requires Unambiguous(changes) && Ordered(ordered) && i < j < |ordered|
    requires ordered[i] in changes && ordered[j] in changes && Overlap(ordered[i], ordered[j]).Some?
    ensures Overlap(ordered[i], ordered[j]).value in FindingsOf(changes)
  {
    var a, b := ordered[i], ordered[j];
    NoSelfOverlap();
    hide Overlap;
    BeforeIsTotal(a.eventId, b.eventId);
  }

  lemma FindingIsPair(changes: set<Change>, ordered: seq<Change>, f: Finding) returns (i: nat, j: nat)
    requires Ordered(ordered) && f in FindingsOf(changes) && forall c :: c in changes ==> c in ordered
    ensures i < j < |ordered| && Overlap(ordered[i], ordered[j]) == Some(f)
  {
    hide Overlap;
    var a, b :| a in changes && b in changes && Before(a.eventId, b.eventId) && Overlap(a, b).Some? && f == Overlap(a, b).value;
    i :| 0 <= i < |ordered| && ordered[i] == a;
    j :| 0 <= j < |ordered| && ordered[j] == b;
    BeforeIsTotal(a.eventId, b.eventId);
    assert i == j || i < j || j < i;
  }

  lemma NoSelfOverlap()
    ensures forall c :: Overlap(c, c) == None
  {
  }

  // ---- From events to findings ----

  /** What the detector promises for an event list: the findings of its set and lookup, once each, in order of their IDs. */
  ghost predicate IsFindingList(events: seq<Event>, valid: seq<Event> -> bool, rowDigest: WorkGraph.Digest,
                                digest: FindingEvidence -> string, findings: seq<Finding>) {
    && ByDigest(findings, digest)
    && Elements(findings) == FindingsOf(EvidenceOf(Elements(events), WorkGraph.LookupOf(events, valid, rowDigest)))
  }

  method SameSymbolFindings(events: seq<Event>, valid: seq<Event> -> bool, rowDigest: WorkGraph.Digest, digest: FindingEvidence -> string)
    returns (findings: seq<Finding>)
    requires Injective(digest)
    ensures IsFindingList(events, valid, rowDigest, digest, findings)
  {
    hide EvidenceOf, FindingsOf, WorkGraph.LookupOf;
    ghost var lookup := WorkGraph.LookupOf(events, valid, rowDigest);
    var evidence := DeriveSameSymbolEvidence(events, valid, rowDigest);
    forall a, b | a in Elements(evidence) && b in Elements(evidence) && a.eventId == b.eventId ensures a == b {
      EvidenceIsUnambiguous(Elements(events), lookup, a, b);
    }
    findings := RunSameSymbolDetector(evidence, digest);
    forall f | f in FindingsOf(EvidenceOf(Elements(events), lookup)) ensures f in findings {
      var g :| g in findings && g.evidence == f.evidence;
      EvidenceNamesFinding(Elements(events), lookup, f, g);
    }
  }

  /** Findings with one ID are one finding. */
  lemma EvidenceNamesFinding(events: set<Event>, lookup: Lookup, f: Finding, g: Finding)
    requires f in FindingsOf(EvidenceOf(events, lookup)) && g in FindingsOf(EvidenceOf(events, lookup))
    requires f.evidence == g.evidence
    ensures f == g
  {
    hide EvidenceOf;
    var a, b :| a in EvidenceOf(events, lookup) && b in EvidenceOf(events, lookup) && Overlap(a, b).Some? && f == Overlap(a, b).value;
    OverlapNames(a, b);
    FindingsFormAMatching(events, lookup, f, g, a.eventId);
  }

  lemma OverlapNames(a: Change, b: Change)
    ensures Overlap(a, b).Some? ==> a.eventId in Overlap(a, b).value.evidence.eventIds
  {
  }

  lemma EqualFindings(one: seq<Finding>, other: seq<Finding>, digest: FindingEvidence -> string)
    requires ByDigest(one, digest) && ByDigest(other, digest) && Elements(one) == Elements(other)
    ensures one == other
  {
    assert forall f :: f in one <==> f in Elements(one);
    assert forall f :: f in other <==> f in Elements(other);
    assert one == [] || one[0] in one;
    assert other == [] || other[0] in other;
    SortedListsAreEqual(one, other, digest);
  }

  /** In whatever order the events come, the list of findings is the same. */
  lemma OrderDoesNotMatter(events: seq<Event>, others: seq<Event>, valid: seq<Event> -> bool, rowDigest: WorkGraph.Digest,
                           digest: FindingEvidence -> string, findings: seq<Finding>, found: seq<Finding>)
    requires multiset(events) == multiset(others)
    requires IsFindingList(events, valid, rowDigest, digest, findings) && IsFindingList(others, valid, rowDigest, digest, found)
    ensures findings == found
  {
    hide FindingsOf, EvidenceOf, ByDigest;
    SameElements(events, others);
    NoRepeatsIff(events);
    NoRepeatsIff(others);
    EqualFindings(findings, found, digest);
  }

  lemma SameElements(events: seq<Event>, others: seq<Event>)
    requires multiset(events) == multiset(others)
    ensures Elements(events) == Elements(others)
  {
    forall e ensures e in events <==> e in others {
      assert e in events <==> e in multiset(events);
      assert e in others <==> e in multiset(others);
    }
  }

  /** IDs are distinct exactly when every event occurs once at most and no two share an ID. */
  lemma {:induction false} NoRepeatsIff(events: seq<Event>)
    ensures NoRepeats(events) <==> NoConflict(Elements(events)) && forall e :: multiset(events)[e] <= 1
  {
    if events != [] {
      var front, last := events[..|events| - 1], events[|events| - 1];
      NoRepeatsIff(front);
      assert events == front + [last];
      assert last in front <==> multiset(front)[last] > 0;
      if NoConflict(Elements(events)) && forall e :: multiset(events)[e] <= 1 {
        assert multiset(events)[last] == multiset(front)[last] + 1;
        assert forall e :: multiset(front)[e] <= multiset(events)[e];
        forall i | 0 <= i < |front| ensures events[i].eventId != last.eventId {
          assert events[i] in front && events[i] in Elements(events) && last in Elements(events);
        }
        forall i, j | 0 <= i < j < |events| ensures events[i].eventId != events[j].eventId {
          if j < |front| { assert front[i] == events[i] && front[j] == events[j]; }
        }
      }
      if NoRepeats(events) {
        assert forall i :: 0 <= i < |front| ==> front[i] == events[i];
        assert last !in front;
      }
    }
  }

  /** A list in which an event ID repeats, exactly or not, has no coverage, no evidence and no findings. */
  lemma RepetitionYieldsNothing(events: seq<Event>, valid: seq<Event> -> bool, rowDigest: WorkGraph.Digest,
                                digest: FindingEvidence -> string, findings: seq<Finding>)
    requires !NoRepeats(events) && IsFindingList(events, valid, rowDigest, digest, findings)
    ensures EvidenceOf(Elements(events), WorkGraph.LookupOf(events, valid, rowDigest)) == {} && findings == []
  {
    NoCoverageNoEvidence(Elements(events));
    hide EvidenceOf;
    WorkGraph.EmptyElements(findings);
  }

  lemma NoCoverageNoEvidence(events: set<Event>)
    ensures EvidenceOf(events, map[]) == {}
  {
    if NoConflict(events) {
      var v := ViewOf(events, map[]);
      forall e ensures Covered(v, e) == None {
        assert v.lookup == map[];
        assert WalkResult(CausesOf(v.byId), v.lookup, e.eventId, Covered(v, e));
      }
    }
  }

  /**
   * Two lists of the same events give the same findings if and only if both repeat an ID, or neither
   * does, or there is nothing to find: an exact repetition erases every finding there was.
   */
  lemma SameFindingsIff(events: seq<Event>, others: seq<Event>, valid: seq<Event> -> bool, rowDigest: WorkGraph.Digest,
                        digest: FindingEvidence -> string, findings: seq<Finding>, found: seq<Finding>)
    requires Elements(events) == Elements(others)
    requires IsFindingList(events, valid, rowDigest, digest, findings) && IsFindingList(others, valid, rowDigest, digest, found)
    ensures findings == found <==> (NoRepeats(events) <==> NoRepeats(others)) || (findings == [] && found == [])
  {
    if !NoRepeats(events) { RepetitionYieldsNothing(events, valid, rowDigest, digest, findings); }
    if !NoRepeats(others) { RepetitionYieldsNothing(others, valid, rowDigest, digest, found); }
    hide FindingsOf, EvidenceOf, ByDigest, NoRepeats;
    if NoRepeats(events) && NoRepeats(others) { EqualFindings(findings, found, digest); }
  }

  lemma {:induction false} SortedListsAreEqual(one: seq<Finding>, other: seq<Finding>, digest: FindingEvidence -> string)
    requires ByDigest(one, digest) && ByDigest(other, digest)
    requires forall f :: f in one <==> f in other
    requires (one == [] || one[0] in other) && (other == [] || other[0] in one)
    ensures one == other
  {
    if one != [] && other != [] {
      var i :| 0 <= i < |one| && one[i] == other[0];
      var j :| 0 <= j < |other| && other[j] == one[0];
      BeforeIsTotal(digest(one[0].evidence), digest(other[0].evidence));
      assert one[0] == other[0];
      forall f ensures f in one[1..] <==> f in other[1..] {
        BeforeIsTotal(digest(one[0].evidence), digest(one[0].evidence));
        assert f in one <==> f == one[0] || f in one[1..];
        assert f in other <==> f == other[0] || f in other[1..];
      }
      assert |one| > 1 ==> one[1..][0] in one[1..];
      assert |other| > 1 ==> other[1..][0] in other[1..];
      SortedListsAreEqual(one[1..], other[1..], digest);
    }
  }
}
