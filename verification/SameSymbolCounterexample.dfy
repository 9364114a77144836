/** Streams with a finding that vanishes when one of their events is recorded twice. */
module SameSymbolCounterexample {
  import opened Options
  import opened Paths
  import opened Causation
  import opened SameSymbol
  import opened Replay
  import opened SameSymbolRuntime
  import W = WorkGraph

  /** Sufficient, hash-bound evidence about a symbol change that binds the change itself. */
  predicate Proves(e: Event, change: Event, target: Target)
    requires change.body.SymbolChanged?
  {
    && e.body.Derived? && e.body.version3
    && var d := e.body.evidence;
       && d.targetEventId == change.eventId && d.sufficient && d.symbolFact && d.hashBoundProof && d.target == target
       && change.eventId in d.sourceEventIds
       && d.binding == Binding(change.eventId, change.body.after.resourceId, change.body.after,
                               DigestOf(change.body.after.resourceId, change.body.after))
  }

  /** Two changes of one symbol to different values. */
  predicate Rivals(a: Event, b: Event) {
    && a.body.SymbolChanged? && b.body.SymbolChanged? && a.body.symbolKind && b.body.symbolKind
    && a.agentId.Some? && b.agentId.Some? && a.agentId != b.agentId && a.taskId.Some? && b.taskId.Some? && a.taskId != b.taskId
    && a.worktreeId != b.worktreeId && a.repositoryId == b.repositoryId && a.body.resourceId == b.body.resourceId
    && a.body.after.value.Some? && b.body.after.value.Some? && a.body.after == b.body.after.(value := a.body.after.value)
    && a.body.after.value != b.body.after.value
  }

  /** The coverage identity of the one call of the stream. */
  function CallIdentity(s: seq<Event>): W.Identity
    requires |s| == 7
  {
    W.Identity("tool:" + s[0].eventId, {W.Intercepted} + {W.Verified}, multiset{},
               {s[0].eventId, s[1].eventId, s[2].eventId, s[3].eventId})
  }

  /** Listed by ascending IDs, with a root first and every other event caused by one before it. */
  ghost predicate Linked(s: seq<Event>) {
    && |s| == 7
    && (forall i, j :: 0 <= i < j < |s| ==> Before(s[i].eventId, s[j].eventId))
    && s[0].causation == None && s[1].causation == Some(s[0].eventId) && s[2].causation == Some(s[0].eventId)
    && s[3].causation == Some(s[0].eventId) && s[4].causation == Some(s[1].eventId) && s[5].causation == Some(s[2].eventId)
    && s[6].causation == Some(s[1].eventId)
  }

  /**
   * A request, two rival changes it caused, its completion, evidence for both changes, and an
   * observation of the two agents that names the coverage of the call.
   */
  ghost predicate IsStream(s: seq<Event>, target: Target, coverage: string) {
    && Linked(s)
    && s[0].body == Requested(false) && Rivals(s[1], s[2]) && s[1].source == OtherSource && s[2].source == OtherSource
    && s[3].body == Completed(s[0].eventId, [s[1].eventId, s[2].eventId], [])
    && Proves(s[4], s[1], target) && Proves(s[5], s[2], target) && s[6].source == OtherSource
    && s[6].body == Concurrency(true, Observation(s[1].eventId, s[2].eventId, s[1].agentId.value, s[2].agentId.value,
                                                  s[1].taskId.value, s[2].taskId.value, s[1].worktreeId, s[2].worktreeId, target, coverage))
  }

  // ---- The lookup of the stream ----

  /** Events listed by ascending IDs, causes first, are in causal order. */
  lemma AscendingIsCausal(events: seq<Event>)
    requires forall i, j :: 0 <= i < j < |events| ==> Before(events[i].eventId, events[j].eventId)
    requires forall i :: 0 <= i < |events| ==>
               events[i].causation == None || exists j :: 0 <= j < i && events[i].causation == Some(events[j].eventId)
    ensures NoRepeats(events) && IsCausalOrder(Elements(events), events)
  {
    hide Before;
    forall i, j | 0 <= i < j < |events| ensures events[i].eventId != events[j].eventId {
      BeforeIsTotal(events[i].eventId, events[j].eventId);
    }
    assert NoRepeats(events);
    hide NoRepeats, IsReady;
    forall k | 0 <= k < |events|
      ensures IsReady(Elements(events), events[..k], events[k])
      ensures forall e :: IsReady(Elements(events), events[..k], e) ==> e == events[k] || Before(events[k].eventId, e.eventId)
    {
      NextIsReady(events, k);
    }
  }

  lemma NextIsReady(events: seq<Event>, k: nat)
    requires k < |events|
    requires forall i, j :: 0 <= i < j < |events| ==> Before(events[i].eventId, events[j].eventId)
    requires forall i, j :: 0 <= i < j < |events| ==> events[i].eventId != events[j].eventId
    requires events[k].causation == None || exists j :: 0 <= j < k && events[k].causation == Some(events[j].eventId)
    ensures IsReady(Elements(events), events[..k], events[k])
    ensures forall e :: IsReady(Elements(events), events[..k], e) ==> e == events[k] || Before(events[k].eventId, e.eventId)
  {
    hide Before;
    if events[k].causation.Some? {
      var j :| 0 <= j < k && events[k].causation == Some(events[j].eventId);
      assert events[j] in events[..k];
    }
    assert forall m :: 0 <= m < k ==> events[m] in events[..k];
    forall e | IsReady(Elements(events), events[..k], e) ensures e == events[k] || Before(events[k].eventId, e.eventId) {
      var m :| 0 <= m < |events| && events[m] == e;
    }
  }

  lemma StreamIsCausal(s: seq<Event>)
    requires Linked(s)
    ensures NoRepeats(s) && IsCausalOrder(Elements(s), s) && NoConflict(Elements(s))
    ensures forall i :: 0 <= i < |s| ==> s[i].eventId in ById(Elements(s)) && ById(Elements(s))[s[i].eventId] == s[i]
  {
    hide NoRepeats, IsCausalOrder, Before;
    assert forall i :: 0 <= i < |s| ==> s[i].causation == None || exists j :: 0 <= j < i && s[i].causation == Some(s[j].eventId);
    AscendingIsCausal(s);
    DistinctEvents(s);
    FoundById(s);
  }

  lemma FoundById(events: seq<Event>)
    requires NoConflict(Elements(events))
    ensures forall i :: 0 <= i < |events| ==> events[i].eventId in ById(Elements(events)) && ById(Elements(events))[events[i].eventId] == events[i]
  {
    assert forall i :: 0 <= i < |events| ==> events[i] in Elements(events);
  }

  /** The bodies tell the events of the stream apart. */
  lemma OnlyEvents(s: seq<Event>, target: Target, coverage: string)
    requires IsStream(s, target, coverage)
    ensures forall e :: e in s && e.body.Requested? ==> e == s[0]
    ensures forall e :: e in s && e.body.Completed? ==> e == s[3]
    ensures forall e :: e in s ==> !e.body.Read?
    ensures forall e :: e in s && W.IsChange(e) ==> e == s[1] || e == s[2]
    ensures forall e :: e in s && e.body.Derived? ==> e == s[4] || e == s[5]
    ensures forall e :: e in s && e.body.Concurrency? ==> e == s[6]
  {
  }

  lemma TheRow(s: seq<Event>, target: Target, rowDigest: W.Digest)
    requires |s| == 7 && IsStream(s, target, rowDigest(CallIdentity(s)))
    ensures NoConflict(Elements(s)) && s[0].body.Requested?
    ensures W.RowOf(s, s[0], rowDigest) == CoverageEntry(rowDigest(CallIdentity(s)), true, CallIdentity(s).evidence)
  {
    var coverage := rowDigest(CallIdentity(s));
    StreamIsCausal(s);
    OnlyEvents(s, target, coverage);
    var all := Elements(s);
    var byId := ById(all);
    TheCompletion(s, target, coverage);
    TheEffects(byId, s[1], s[2]);
    var seen := set effect | effect in [s[1].eventId, s[2].eventId] && W.OnRecord(byId, effect);
    IdentityParts(s, s[0].eventId, s[3].eventId, seen);
    assert s[0].body.Requested? && s[3].body == Completed(s[0].eventId, [s[1].eventId, s[2].eventId], []) && !s[0].body.opaqueCall;
    hide ById, NoConflict, Elements, W.CompletionOf, W.EffectGaps, W.ReadsOf, W.BoundTo, W.OnRecord, W.EffectGap, IsStream, CallIdentity;
    var identity := W.IdentityOf(s[0], Some(s[3]), byId, {}, {});
    assert W.IdentityAt(s, s[0]) == identity;
    assert identity == W.Identity("tool:" + s[0].eventId, {W.Intercepted} + {W.Verified}, multiset{}, {s[0].eventId} + {s[3].eventId} + {} + seen + {});
  }

  lemma TheEffects(byId: map<string, Event>, a: Event, b: Event)
    requires a.eventId in byId && byId[a.eventId] == a && b.eventId in byId && byId[b.eventId] == b
    requires W.IsChange(a) && W.IsChange(b) && !a.source.Watcher? && !b.source.Watcher?
    ensures W.EffectGaps(byId, [], [a.eventId, b.eventId]) == multiset{}
    ensures (set effect | effect in [a.eventId, b.eventId] && W.OnRecord(byId, effect)) == {a.eventId, b.eventId}
  {
    W.NoGapsIff(byId, [], [a.eventId, b.eventId]);
  }

  lemma IdentityParts(s: seq<Event>, request: string, completion: string, seen: set<string>)
    requires |s| == 7 && request == s[0].eventId && completion == s[3].eventId && seen == {s[1].eventId, s[2].eventId}
    ensures W.Identity("tool:" + request, {W.Intercepted} + {W.Verified}, multiset{}, {request} + {completion} + {} + seen + {}) == CallIdentity(s)
    ensures W.Verified in CallIdentity(s).modes && CallIdentity(s).gaps == multiset{}
  {
  }

  lemma TheCompletion(s: seq<Event>, target: Target, coverage: string)
    requires IsStream(s, target, coverage)
    ensures W.CompletionOf(s, s[0].eventId) == Some(s[3])
    ensures W.ReadsOf(Elements(s), s[0].eventId) == {} && W.BoundTo(Elements(s), s[3].eventId) == {}
  {
    OnlyEvents(s, target, coverage);
    W.CompletionIsCompletion(s, s[0].eventId);
    BeforeIsTotal(s[0].eventId, s[3].eventId);
    assert s[3] in s;
    hide W.CompletionOf;
    assert forall e :: e in Elements(s) ==> !e.body.Read? && !(W.IsChange(e) && e.causation == Some(s[3].eventId));
  }

  lemma OnlyRequest(s: seq<Event>, target: Target, coverage: string)
    requires IsStream(s, target, coverage)
    ensures W.RequestsOf(s) == [s[0]]
  {
    StreamIsCausal(s);
    OnlyEvents(s, target, coverage);
    W.RequestsAre(s);
    W.RequestsDoNotRepeat(s);
    Single(W.RequestsOf(s), s[0]);
  }

  lemma Single(events: seq<Event>, e: Event)
    requires NoRepeats(events) && forall x :: x in events <==> x == e
    ensures events == [e]
  {
    assert e in events;
    forall i | 0 <= i < |events| ensures events[i] == e { assert events[i] in events; }
    assert |events| > 1 ==> events[0].eventId != events[1].eventId;
  }

  /** The lookup in a table of one sufficient row. */
  lemma OneRowLookup(row: CoverageEntry, lookup: Lookup)
    requires row.sufficient && IsIdLookup([row], lookup)
    ensures lookup == map id | id in row.evidenceEventIds :: row.coverageId
  {
    forall id ensures IdsAt([row], id) == if id in row.evidenceEventIds then {row.coverageId} else {} {
      assert row in [row];
    }
    assert forall c: string :: c in {c};
    forall id | id in lookup ensures lookup[id] == row.coverageId {
      assert lookup[id] in IdsAt([row], id);
    }
  }

  /** The call covers its own events and nothing else. */
  lemma StreamLookup(s: seq<Event>, target: Target, valid: seq<Event> -> bool, rowDigest: W.Digest)
    requires |s| == 7 && IsStream(s, target, rowDigest(CallIdentity(s))) && valid(s)
    ensures W.LookupOf(s, valid, rowDigest) == map id | id in CallIdentity(s).evidence :: rowDigest(CallIdentity(s))
  {
    var coverage := rowDigest(CallIdentity(s));
    var row := CoverageEntry(coverage, true, CallIdentity(s).evidence);
    StreamIsCausal(s);
    TheRow(s, target, rowDigest);
    OnlyRequest(s, target, coverage);
    hide IsStream, CallIdentity, Elements, W.RowOf, W.RequestsOf;
    TableOfOne(s, s[0], rowDigest, row);
    OneRowLookup(row, W.LookupIn([row]));
    LookupByOrder(s, valid, rowDigest);
  }

  lemma TableOfOne(events: seq<Event>, r: Event, rowDigest: W.Digest, row: CoverageEntry)
    requires NoConflict(Elements(events)) && r.body.Requested?
    requires W.RequestsOf(events) == [r] && W.RowOf(events, r, rowDigest) == row
    ensures W.TableOf(events, rowDigest) == [row]
  {
    assert W.IsRow(events, W.RequestsOf(events)[0], rowDigest, W.TableOf(events, rowDigest)[0]);
  }

  /** The lookup of a list that is in causal order already. */
  lemma LookupByOrder(events: seq<Event>, valid: seq<Event> -> bool, rowDigest: W.Digest)
    requires NoRepeats(events) && NoConflict(Elements(events)) && IsCausalOrder(Elements(events), events) && valid(events)
    ensures W.LookupOf(events, valid, rowDigest) == W.LookupIn(W.TableOf(events, rowDigest))
  {
    hide NoRepeats, NoConflict, IsCausalOrder, W.TableOf, W.LookupIn, Elements;
    forall other | IsCausalOrder(Elements(events), other) ensures other == events {
      CausalOrderIsUnique(Elements(events), events, other);
    }
  }

  // ---- The finding of the stream ----

  lemma CoveredDirectly(v: View, e: Event)
    requires e.eventId in v.byId && e.eventId in v.lookup
    ensures Covered(v, e) == Some(v.lookup[e.eventId])
  {
    assert NearestAt(CausesOf(v.byId), v.lookup, e.eventId, 0, v.lookup[e.eventId]);
    WalkIsUnique(CausesOf(v.byId), v.lookup, e.eventId, Some(v.lookup[e.eventId]), Covered(v, e));
  }

  lemma CoveredByCause(v: View, e: Event, cause: Event)
    requires e.eventId in v.byId && v.byId[e.eventId] == e && e.eventId !in v.lookup
    requires e.causation == Some(cause.eventId) && cause.eventId in v.byId && cause.eventId in v.lookup
    ensures Covered(v, e) == Some(v.lookup[cause.eventId])
  {
    var causes := CausesOf(v.byId);
    assert Ancestor(causes, e.eventId, 0) == Some(e.eventId);
    assert Ancestor(causes, e.eventId, 1) == Some(cause.eventId);
    assert NearestAt(causes, v.lookup, e.eventId, 1, v.lookup[cause.eventId]);
    WalkIsUnique(causes, v.lookup, e.eventId, Some(v.lookup[cause.eventId]), Covered(v, e));
  }

  /** The only evidence about a change represents it. */
  lemma OnlyProof(all: set<Event>, e: Event, change: Event, target: Target)
    requires NoConflict(all) && e in all && change.body.SymbolChanged? && Proves(e, change, target)
    requires forall x :: x in all && x.body.Derived? && x.body.evidence.targetEventId == change.eventId ==> x == e
    ensures change.eventId in MetadataMap(all) && MetadataMap(all)[change.eventId] == e
  {
    var group := DerivedAt(all, change.eventId);
    assert IsChosen(group, e);
    MetadataOf(all, change.eventId);
    ChosenIsUnique(group, e, Metadata(all, change.eventId).value);
    assert IsSufficient(e);
  }

  ghost predicate IsStreamLookup(s: seq<Event>, lookup: Lookup, coverage: string)
    requires |s| == 7
  {
    lookup == map id | id in CallIdentity(s).evidence :: coverage
  }

  lemma StreamLooksUp(s: seq<Event>, lookup: Lookup, coverage: string)
    requires Linked(s) && IsStreamLookup(s, lookup, coverage)
    ensures forall i :: 0 <= i < 4 ==> s[i].eventId in lookup && lookup[s[i].eventId] == coverage
    ensures forall i :: 4 <= i < 7 ==> s[i].eventId !in lookup
  {
    forall i | 4 <= i < 7 ensures s[i].eventId !in lookup {
      forall j | 0 <= j < 4 ensures s[i].eventId != s[j].eventId { BeforeIsTotal(s[j].eventId, s[i].eventId); }
    }
  }

  lemma StreamCoverage(s: seq<Event>, v: View, coverage: string)
    requires Linked(s) && IsStreamLookup(s, v.lookup, coverage)
    requires forall i :: 0 <= i < 7 ==> s[i].eventId in v.byId && v.byId[s[i].eventId] == s[i]
    ensures Covered(v, s[1]) == Some(coverage) && Covered(v, s[2]) == Some(coverage) && Covered(v, s[4]) == Some(coverage)
    ensures Covered(v, s[5]) == Some(coverage) && Covered(v, s[6]) == Some(coverage)
  {
    StreamLooksUp(s, v.lookup, coverage);
    hide Covered, IsStreamLookup, Before;
    CoveredDirectly(v, s[1]);
    CoveredDirectly(v, s[2]);
    CoveredByCause(v, s[4], s[1]);
    CoveredByCause(v, s[5], s[2]);
    CoveredByCause(v, s[6], s[1]);
  }

  lemma StreamMetadata(s: seq<Event>, target: Target, coverage: string)
    requires IsStream(s, target, coverage)
    ensures NoConflict(Elements(s))
    ensures var metadata := MetadataMap(Elements(s));
            && s[1].eventId in metadata && metadata[s[1].eventId] == s[4]
            && s[2].eventId in metadata && metadata[s[2].eventId] == s[5]
  {
    StreamIsCausal(s);
    OnlyEvents(s, target, coverage);
    BeforeIsTotal(s[1].eventId, s[2].eventId);
    hide NoRepeats, IsCausalOrder, ById;
    OnlyProof(Elements(s), s[4], s[1], target);
    OnlyProof(Elements(s), s[5], s[2], target);
  }

  /** What the derivation looks up in the stream. */
  ghost predicate Sees(s: seq<Event>, v: View, coverage: string)
    requires |s| == 7
  {
    && (forall i :: 0 <= i < 7 ==> s[i].eventId in v.byId && v.byId[s[i].eventId] == s[i])
    && s[1].eventId in v.metadata && v.metadata[s[1].eventId] == s[4] && s[2].eventId in v.metadata && v.metadata[s[2].eventId] == s[5]
    && Covered(v, s[1]) == Some(coverage) && Covered(v, s[2]) == Some(coverage) && Covered(v, s[4]) == Some(coverage)
    && Covered(v, s[5]) == Some(coverage) && Covered(v, s[6]) == Some(coverage)
  }

  lemma StreamSees(s: seq<Event>, target: Target, lookup: Lookup, coverage: string)
    requires IsStream(s, target, coverage) && IsStreamLookup(s, lookup, coverage)
    ensures NoConflict(Elements(s)) && Sees(s, ViewOf(Elements(s), lookup), coverage)
  {
    hide Covered, MetadataMap, NoRepeats, IsCausalOrder, ById, IsStreamLookup, NoConflict, Elements;
    StreamIsCausal(s);
    StreamMetadata(s, target, coverage);
    hide Linked;
    assert Linked(s) && |s| == 7;
    hide IsStream;
    var v := ViewOf(Elements(s), lookup);
    assert v == View(ById(Elements(s)), MetadataMap(Elements(s)), lookup);
    hide ViewOf;
    StreamCoverage(s, v, coverage);
  }

  lemma StreamAccepts(s: seq<Event>, target: Target, v: View, coverage: string)
    requires IsStream(s, target, coverage) && Sees(s, v, coverage)
    ensures Accepted(v, s[6])
  {
    hide Covered, Before;
  }

  lemma StreamObserved(s: seq<Event>, target: Target, v: View, coverage: string)
    requires IsStream(s, target, coverage) && Sees(s, v, coverage) && NoConflict(Elements(s))
    ensures SameSymbol.Observed(Elements(s), v, s[1].eventId) == Some(AssertionAt(s[6], s[1].eventId))
    ensures SameSymbol.Observed(Elements(s), v, s[2].eventId) == Some(AssertionAt(s[6], s[2].eventId))
  {
    var all := Elements(s);
    OnlyEvents(s, target, coverage);
    StreamAccepts(s, target, v, coverage);
    assert s[6] in all && Names(s[6].body.observation, s[1].eventId) && Names(s[6].body.observation, s[2].eventId);
    ObservationsOnly(v);
    OneAssertion(all, v, s[6], s[1].eventId);
    OneAssertion(all, v, s[6], s[2].eventId);
  }

  lemma OneAssertion(all: set<Event>, v: View, o: Event, id: string)
    requires NoConflict(all) && o in all && Accepted(v, o) && o.body.Concurrency? && Names(o.body.observation, id)
    requires forall e :: e in all && e.body.Concurrency? ==> e == o
    ensures SameSymbol.Observed(all, v, id) == Some(AssertionAt(o, id))
  {
    hide Covered, Consistent, NoConflict;
    assert AssertionsAt(all, v, id) == {AssertionAt(o, id)};
    ObservedBy(all, v, id, Some(AssertionAt(o, id)));
  }

  lemma StreamEvidence(s: seq<Event>, target: Target, v: View, coverage: string)
    requires IsStream(s, target, coverage) && Sees(s, v, coverage) && NoConflict(Elements(s))
    ensures IsEvidence(Elements(s), v, s[1]) && IsEvidence(Elements(s), v, s[2])
  {
    StreamObserved(s, target, v, coverage);
    hide Covered, SameSymbol.Observed, Before, NoConflict;
  }

  /** The evidence records of two rivals overlap. */
  lemma RivalsOverlap(a: Event, b: Event, o: Event, coverage: string)
    requires Rivals(a, b) && o.body.Concurrency?
    ensures Overlap(ChangeOf(a, coverage, AssertionAt(o, a.eventId)), ChangeOf(b, coverage, AssertionAt(o, b.eventId))).Some?
  {
  }

  lemma StreamHasFinding(s: seq<Event>, target: Target, lookup: Lookup, coverage: string)
    requires IsStream(s, target, coverage) && IsStreamLookup(s, lookup, coverage)
    ensures FindingsOf(EvidenceOf(Elements(s), lookup)) != {}
  {
    var all := Elements(s);
    StreamSees(s, target, lookup, coverage);
    var v := ViewOf(all, lookup);
    StreamObserved(s, target, v, coverage);
    StreamEvidence(s, target, v, coverage);
    RivalsOverlap(s[1], s[2], s[6], coverage);
    var a, b := ChangeOf(s[1], coverage, AssertionAt(s[6], s[1].eventId)), ChangeOf(s[2], coverage, AssertionAt(s[6], s[2].eventId));
    assert s[1] in all && s[2] in all && Before(a.eventId, b.eventId);
    hide Covered, SameSymbol.Observed, IsEvidence, Overlap, IsStream, ViewOf;
    assert Covered(v, s[1]).value == coverage && Covered(v, s[2]).value == coverage;
    assert a in EvidenceOf(all, lookup) && b in EvidenceOf(all, lookup);
    hide EvidenceOf;
    assert Overlap(a, b).value in FindingsOf(EvidenceOf(all, lookup));
  }

  /** The stream has a finding, and recording any one of its events a second time leaves none. */
  lemma RepetitionErasesFindings(s: seq<Event>, target: Target, again: Event, valid: seq<Event> -> bool, rowDigest: W.Digest,
                                 digest: FindingEvidence -> string, findings: seq<Finding>, found: seq<Finding>)
    requires |s| == 7 && IsStream(s, target, rowDigest(CallIdentity(s))) && valid(s) && again in s
    requires IsFindingList(s, valid, rowDigest, digest, findings) && IsFindingList(s + [again], valid, rowDigest, digest, found)
    ensures findings != [] && found == []
  {
    hide IsStream, CallIdentity, FindingsOf, EvidenceOf, ByDigest;
    StreamLookup(s, target, valid, rowDigest);
    hide W.LookupOf, Elements, NoRepeats;
    StreamHasFinding(s, target, W.LookupOf(s, valid, rowDigest), rowDigest(CallIdentity(s)));
    W.EmptyElements(findings);
    RecordedTwice(s, again);
    RepetitionYieldsNothing(s + [again], valid, rowDigest, digest, found);
  }

  lemma RecordedTwice(events: seq<Event>, again: Event)
    requires again in events
    ensures !NoRepeats(events + [again])
  {
    var i :| 0 <= i < |events| && events[i] == again;
    assert (events + [again])[i].eventId == (events + [again])[|events|].eventId;
  }

  lemma SomeStream(rowDigest: W.Digest) returns (s: seq<Event>, target: Target)
    ensures |s| == 7 && IsStream(s, target, rowDigest(CallIdentity(s)))
  {
    target := Target("", "", "", "");
    var one, other := Version("", "", "", Some("1")), Version("", "", "", Some("2"));
    assert "1"[0] != "2"[0];
    var coverage := rowDigest(W.Identity("tool:" + "1", {W.Intercepted} + {W.Verified}, multiset{}, {"1", "2", "3", "4"}));
    s := [Event("1", None, OtherSource, "", None, None, "", Requested(false), ""),
          Event("2", Some("1"), OtherSource, "", Some("1"), Some("1"), "1", SymbolChanged("", true, one), ""),
          Event("3", Some("1"), OtherSource, "", Some("2"), Some("2"), "2", SymbolChanged("", true, other), ""),
          Event("4", Some("1"), OtherSource, "", None, None, "", Completed("1", ["2", "3"], []), ""),
          Event("5", Some("2"), OtherSource, "", None, None, "",
                Derived(true, Evidence("2", true, true, true, ["2"], Binding("2", "", one, DigestOf("", one)), target, "")), ""),
          Event("6", Some("3"), OtherSource, "", None, None, "",
                Derived(true, Evidence("3", true, true, true, ["3"], Binding("3", "", other, DigestOf("", other)), target, "")), ""),
          Event("7", Some("2"), OtherSource, "", None, None, "",
                Concurrency(true, Observation("2", "3", "1", "2", "1", "2", "1", "2", target, coverage)), "")];
  }
}
