/**
 * Same-symbol findings as a function of the event set: what packages/core/src/same-symbol-runtime.ts,
 * detector-runner.ts and same-symbol-overlap.ts derive, independently of the order they see events in.
 */
module SameSymbol {
  import opened Options
  import opened Paths
  import opened Causation

  datatype Version = Version(repositoryId: string, resourceId: string, kind: string, value: Option<string>)

  datatype Target = Target(repositoryId: string, targetSnapshotId: string, digest: string, integrationTarget: string)

  /** SHA-256 of a resource ID and a version, as an injective function of them. */
  datatype Digest = DigestOf(resourceId: string, version: Version) | OtherDigest(text: string)

  datatype Binding = Binding(sourceEventId: string, sourceResourceId: string, sourceVersion: Version, analysisInput: Digest)

  datatype Evidence = Evidence(
    targetEventId: string, sufficient: bool, symbolFact: bool, hashBoundProof: bool,
    sourceEventIds: seq<string>, binding: Binding, target: Target, rest: string)

  datatype Observation = Observation(
    firstChange: string, secondChange: string, firstAgent: string, secondAgent: string,
    firstTask: string, secondTask: string, firstWorktree: string, secondWorktree: string,
    target: Target, coverageId: string)

  datatype Source = Core | Watcher | OtherSource

  /** `Read` is a `file.read` or a `symbol.read`; `attributed` are the deterministically attributed effects. */
  datatype Body =
    | SymbolChanged(resourceId: string, symbolKind: bool, after: Version)
    | FileChanged(version: Version)
    | Read(version: Version)
    | Requested(opaqueCall: bool)
    | Completed(requestEventId: string, effectEventIds: seq<string>, attributed: seq<string>)
    | Derived(version3: bool, evidence: Evidence)
    | Concurrency(version3: bool, observation: Observation)
    | Other

  datatype Event = Event(
    eventId: string, causation: Option<string>, source: Source, repositoryId: string,
    agentId: Option<string>, taskId: Option<string>, worktreeId: string, body: Body, rest: string)

  function Elements<T>(xs: seq<T>): set<T> {
    set x | x in xs
  }

  lemma ElementsOfAppend<T>(xs: seq<T>, x: T)
    ensures Elements(xs + [x]) == Elements(xs) + {x}
  {
  }

  lemma ElementsOfPrefix<T>(xs: seq<T>, i: nat)
    requires i < |xs|
    ensures Elements(xs[..i + 1]) == Elements(xs[..i]) + {xs[i]}
  {
    assert xs[..i + 1] == xs[..i] + [xs[i]];
  }

  function At<T>(m: map<string, seq<T>>, id: string): seq<T> {
    if id in m then m[id] else []
  }

  /** No two different events share an ID. */
  ghost predicate NoConflict(events: set<Event>) {
    forall a, b :: a in events && b in events && a.eventId == b.eventId ==> a == b
  }

  ghost function ById(events: set<Event>): map<string, Event>
    requires NoConflict(events)
  {
    map e | e in events :: e.eventId := e
  }

  method MapById(events: seq<Event>) returns (byId: map<string, Event>)
    requires NoConflict(Elements(events))
    ensures byId == ById(Elements(events))
  {
    byId := map[];
    for i := 0 to |events|
      invariant forall id :: id in byId ==> byId[id] in events && byId[id].eventId == id
      invariant forall k :: 0 <= k < i ==> events[k].eventId in byId
    {
      byId := byId[events[i].eventId := events[i]];
    }
  }

  function CausesOf(byId: map<string, Event>): Causes {
    map id | id in byId :: byId[id].causation
  }

  // ---- Derived evidence ----

  predicate IsSufficient(e: Event) {
    e.body.Derived? && e.body.version3 && e.body.evidence.sufficient
  }

  ghost function DerivedAt(events: set<Event>, target: string): set<Event> {
    set e | e in events && IsSufficient(e) && e.body.evidence.targetEventId == target
  }

  /** `m` is the least-ID member of a group of assertions that all say the same. */
  ghost predicate IsChosen(group: set<Event>, m: Event) {
    && m in group && IsSufficient(m)
    && forall e :: e in group ==> e.body.Derived? && e.body.evidence == m.body.evidence && (e.eventId == m.eventId || Before(m.eventId, e.eventId))
  }

  ghost function Metadata(events: set<Event>, target: string): Option<Event> {
    if m :| IsChosen(DerivedAt(events, target), m) then Some(m) else None
  }

  ghost function MetadataMap(events: set<Event>): map<string, Event> {
    var targets := set e | e in events && IsSufficient(e) :: e.body.evidence.targetEventId;
    map target | target in targets && Metadata(events, target).Some? :: Metadata(events, target).value
  }

  // ---- Observed concurrency ----

  /** Everything the derivation looks things up in. */
  datatype View = View(byId: map<string, Event>, metadata: map<string, Event>, lookup: Lookup)

  ghost function Covered(v: View, e: Event): Option<string> {
    CoverageOf(CausesOf(v.byId), v.lookup, e.eventId)
  }

  function VersionOf(e: Event): Option<Version> {
    match e.body
    case FileChanged(version) => Some(version)
    case Read(version) => Some(version)
    case SymbolChanged(_, _, after) => Some(after)
    case _ => None
  }

  predicate SourceMatches(byId: map<string, Event>, e: Evidence) {
    var b := e.binding;
    && b.sourceEventId in byId && b.sourceEventId in e.sourceEventIds
    && VersionOf(byId[b.sourceEventId]).Some?
    && var version := VersionOf(byId[b.sourceEventId]).value;
       b.analysisInput == DigestOf(b.sourceResourceId, version) && b.sourceResourceId == version.resourceId && b.sourceVersion == version
  }

  predicate SameTarget(a: Target, b: Target) {
    a.repositoryId == b.repositoryId && a.targetSnapshotId == b.targetSnapshotId && a.digest == b.digest
  }

  predicate SymbolProof(byId: map<string, Event>, derived: Event, target: Target) {
    && derived.body.Derived? && derived.body.evidence.symbolFact && derived.body.evidence.hashBoundProof
    && SourceMatches(byId, derived.body.evidence) && SameTarget(derived.body.evidence.target, target)
  }

  /** The two changes and their lookups agree with the observation, apart from coverage. */
  predicate Consistent(v: View, o: Observation) {
    && o.firstChange in v.byId && o.secondChange in v.byId
    && o.firstChange in v.metadata && o.secondChange in v.metadata
    && var first, second := v.byId[o.firstChange], v.byId[o.secondChange];
       && first.body.SymbolChanged? && second.body.SymbolChanged?
       && first.agentId == Some(o.firstAgent) && second.agentId == Some(o.secondAgent)
       && first.taskId == Some(o.firstTask) && second.taskId == Some(o.secondTask)
       && first.worktreeId == o.firstWorktree && second.worktreeId == o.secondWorktree
       && first.repositoryId == second.repositoryId && first.body.resourceId == second.body.resourceId
       && first.agentId != second.agentId && first.taskId != second.taskId && first.worktreeId != second.worktreeId
       && SymbolProof(v.byId, v.metadata[o.firstChange], o.target) && SymbolProof(v.byId, v.metadata[o.secondChange], o.target)
  }

  ghost predicate Accepted(v: View, e: Event) {
    && e.body.Concurrency? && e.body.version3 && !e.source.Core?
    && Covered(v, e) == Some(e.body.observation.coverageId)
    && Consistent(v, e.body.observation)
    && Covered(v, v.metadata[e.body.observation.firstChange]).Some?
    && Covered(v, v.metadata[e.body.observation.secondChange]).Some?
  }

  datatype Assertion = Assertion(eventId: string, other: string, target: Target, coverageId: string)

  function KeyOf(a: Assertion): (string, string, string, string) {
    (a.other, a.target.targetSnapshotId, a.target.digest, a.coverageId)
  }

  predicate Names(o: Observation, id: string) {
    id == o.firstChange || id == o.secondChange
  }

  function AssertionAt(e: Event, id: string): Assertion
    requires e.body.Concurrency?
  {
    var o := e.body.observation;
    Assertion(e.eventId, if id == o.firstChange then o.secondChange else o.firstChange, o.target, o.coverageId)
  }

  ghost function AssertionsAt(events: set<Event>, v: View, id: string): set<Assertion> {
    set e | e in events && Accepted(v, e) && Names(e.body.observation, id) :: AssertionAt(e, id)
  }

  ghost predicate IsObserved(group: set<Assertion>, a: Assertion) {
    a in group && forall b :: b in group ==> KeyOf(b) == KeyOf(a) && (b.eventId == a.eventId || Before(a.eventId, b.eventId))
  }

  ghost function Observed(events: set<Event>, v: View, id: string): Option<Assertion> {
    if a :| IsObserved(AssertionsAt(events, v, id), a) then Some(a) else None
  }

  // ---- Symbol evidence ----

  datatype Change = Change(
    eventId: string, resourceId: string, version: Version, agentId: Option<string>, taskId: Option<string>, worktreeId: string,
    coverageId: string, target: Target, concurrencyEventId: string, concurrencyCoverageId: string)

  ghost predicate IsEvidence(events: set<Event>, v: View, e: Event) {
    && e.body.SymbolChanged? && e.body.symbolKind
    && Covered(v, e).Some? && e.eventId in v.metadata && Covered(v, v.metadata[e.eventId]).Some?
    && Observed(events, v, e.eventId).Some?
    && SymbolProof(v.byId, v.metadata[e.eventId], Observed(events, v, e.eventId).value.target)
  }

  function ChangeOf(e: Event, coverageId: string, observed: Assertion): Change
    requires e.body.SymbolChanged?
  {
    Change(e.eventId, e.body.resourceId, e.body.after, e.agentId, e.taskId, e.worktreeId,
           coverageId, observed.target, observed.eventId, observed.coverageId)
  }

  ghost function ViewOf(events: set<Event>, lookup: Lookup): View
    requires NoConflict(events)
  {
    View(ById(events), MetadataMap(events), lookup)
  }

  /** `deriveSameSymbolEvidence` as a set; a conflicting event set yields nothing. */
  ghost function EvidenceOf(events: set<Event>, lookup: Lookup): set<Change> {
    if !NoConflict(events) then {}
    else
      var v := ViewOf(events, lookup);
      set e | e in events && IsEvidence(events, v, e) :: ChangeOf(e, Covered(v, e).value, Observed(events, v, e.eventId).value)
  }

  // ---- Findings ----

  /** The sorted `evidenceEventIds` and `coverageIds` lists are determined by these collections. */
  datatype FindingEvidence = FindingEvidence(
    subject: string, affectedTask: Option<string>, eventIds: multiset<string>, coverageIds: set<string>)

  datatype Finding = Finding(evidence: FindingEvidence, observedValue: Option<string>, candidateValue: Option<string>)

  predicate Comparable(c: Change) {
    c.agentId.Some? && c.taskId.Some? && c.version.value.Some?
  }

  /** `detectSameSymbolOverlap`. */
  function Overlap(observed: Change, candidate: Change): Option<Finding> {
    if !Comparable(observed) || !Comparable(candidate) then None
    else if
      || observed.resourceId != candidate.resourceId || observed.taskId == candidate.taskId
      || observed.worktreeId == candidate.worktreeId
      || observed.target.targetSnapshotId != candidate.target.targetSnapshotId || observed.target.digest != candidate.target.digest
      || observed.concurrencyEventId != candidate.concurrencyEventId
      || observed.concurrencyCoverageId != candidate.concurrencyCoverageId
      || observed.version.repositoryId != candidate.version.repositoryId || observed.version.resourceId != candidate.version.resourceId
      || observed.version.kind != candidate.version.kind || observed.version.value == candidate.version.value
    then None
    else Some(Finding(
                FindingEvidence(candidate.resourceId, candidate.taskId,
                                multiset{observed.eventId, candidate.eventId, observed.concurrencyEventId},
                                {observed.coverageId, candidate.coverageId, observed.concurrencyCoverageId}),
                observed.version.value, candidate.version.value))
  }

  ghost function FindingsOf(changes: set<Change>): set<Finding> {
    set a, b | a in changes && b in changes && Before(a.eventId, b.eventId) && Overlap(a, b).Some? :: Overlap(a, b).value
  }

  // ---- Lemmas about choices ----

  lemma ChosenIsUnique(group: set<Event>, one: Event, other: Event)
    requires NoConflict(group) && IsChosen(group, one) && IsChosen(group, other)
    ensures one == other
  {
    BeforeIsTotal(one.eventId, other.eventId);
  }

  lemma MetadataOf(events: set<Event>, target: string)
    requires NoConflict(events)
    ensures target in MetadataMap(events) <==> Metadata(events, target).Some?
    ensures target in MetadataMap(events) ==> Some(MetadataMap(events)[target]) == Metadata(events, target)
    ensures target in MetadataMap(events) ==> IsChosen(DerivedAt(events, target), MetadataMap(events)[target])
  {
    if Metadata(events, target).Some? {
      var m := Metadata(events, target).value;
      assert m in DerivedAt(events, target) && m in events;
    }
  }

  lemma ObservedIsUnique(group: set<Assertion>, one: Assertion, other: Assertion)
    requires forall a, b :: a in group && b in group && a.eventId == b.eventId ==> a == b
    requires IsObserved(group, one) && IsObserved(group, other)
    ensures one == other
  {
    BeforeIsTotal(one.eventId, other.eventId);
  }

  /** At one change, an observation event gives one assertion. */
  lemma AssertionsHaveDistinctIds(events: set<Event>, v: View, id: string)
    requires NoConflict(events)
    ensures forall a, b :: a in AssertionsAt(events, v, id) && b in AssertionsAt(events, v, id) && a.eventId == b.eventId ==> a == b
  {
  }

  // ---- Findings form a matching ----

  /** The evidence record of `event`, resting on the observation `e`. */
  ghost predicate Grounded(v: View, events: set<Event>, c: Change, event: Event, e: Event) {
    && event.eventId == c.eventId && c.eventId in v.byId && v.byId[c.eventId] == event
    && IsEvidence(events, v, event)
    && e in events && Accepted(v, e) && Names(e.body.observation, c.eventId)
    && Observed(events, v, c.eventId) == Some(AssertionAt(e, c.eventId))
    && c == ChangeOf(event, Covered(v, event).value, AssertionAt(e, c.eventId))
  }

  lemma EvidenceIsGrounded(events: set<Event>, lookup: Lookup, c: Change) returns (event: Event, e: Event)
    requires c in EvidenceOf(events, lookup)
    ensures NoConflict(events) && Grounded(ViewOf(events, lookup), events, c, event, e)
  {
    hide Accepted, Covered, MetadataMap, Observed, IsEvidence, EvidenceOf, SymbolProof;
    event := EventBehind(events, lookup, c);
    e := ObservedFrom(events, ViewOf(events, lookup), c.eventId);
  }

  lemma EventBehind(events: set<Event>, lookup: Lookup, c: Change) returns (event: Event)
    requires c in EvidenceOf(events, lookup)
    ensures NoConflict(events) && event in events && event.eventId == c.eventId && c.eventId in ById(events) && ById(events)[c.eventId] == event
    ensures var v := ViewOf(events, lookup);
            && IsEvidence(events, v, event) && Covered(v, event).Some? && Observed(events, v, event.eventId).Some?
            && c == ChangeOf(event, Covered(v, event).value, Observed(events, v, event.eventId).value)
  {
    hide Covered, Observed, SymbolProof, MetadataMap;
    var v := ViewOf(events, lookup);
    event :| event in events && IsEvidence(events, v, event)
             && c == ChangeOf(event, Covered(v, event).value, Observed(events, v, event.eventId).value);
  }

  lemma ObservedFrom(events: set<Event>, v: View, id: string) returns (e: Event)
    requires Observed(events, v, id).Some?
    ensures e in events && e.body.Concurrency? && Accepted(v, e) && Names(e.body.observation, id) && AssertionAt(e, id) == Observed(events, v, id).value
  {
    hide Covered, Consistent;
    var observed := Observed(events, v, id).value;
    assert IsObserved(AssertionsAt(events, v, id), observed);
    e :| e in events && Accepted(v, e) && Names(e.body.observation, id) && AssertionAt(e, id) == observed;
  }

  /** A change has one evidence record. */
  lemma EvidenceIsUnambiguous(events: set<Event>, lookup: Lookup, a: Change, b: Change)
    requires a in EvidenceOf(events, lookup) && b in EvidenceOf(events, lookup) && a.eventId == b.eventId
    ensures a == b
  {
    hide Accepted, Covered, IsEvidence, EvidenceOf, Observed;
    var _, _ := EvidenceIsGrounded(events, lookup, a);
    var _, _ := EvidenceIsGrounded(events, lookup, b);
  }

  /**
   * A finding rests on one V3 observation that did not come from the core and names exactly the two
   * changes, whose agents, tasks, worktrees and values all differ.
   */
  ghost predicate SoundFinding(events: set<Event>, f: Finding, first: Event, second: Event, o: Event) {
    && first in events && second in events && o in events
    && first.body.SymbolChanged? && second.body.SymbolChanged? && o.body.Concurrency? && o.body.version3 && !o.source.Core?
    && f.evidence.eventIds == multiset{first.eventId, second.eventId, o.eventId}
    && {o.body.observation.firstChange, o.body.observation.secondChange} == {first.eventId, second.eventId}
    && first.eventId != second.eventId && o.eventId != first.eventId && o.eventId != second.eventId
    && first.agentId.Some? && second.agentId.Some? && first.agentId != second.agentId
    && first.taskId.Some? && second.taskId.Some? && first.taskId != second.taskId
    && first.worktreeId != second.worktreeId && first.repositoryId == second.repositoryId
    && first.body.resourceId == second.body.resourceId == f.evidence.subject
    && first.body.after.value != second.body.after.value
    && f.observedValue == first.body.after.value && f.candidateValue == second.body.after.value
    && f.evidence.affectedTask == second.taskId
    && Before(first.eventId, second.eventId)
  }

  /** An observation that names both of two different changes names nothing else. */
  lemma PairFromObservation(v: View, o: Event, a: string, b: string)
    requires Accepted(v, o) && Names(o.body.observation, a) && Names(o.body.observation, b) && a != b
    ensures {o.body.observation.firstChange, o.body.observation.secondChange} == {a, b}
    ensures AssertionAt(o, a).other == b && AssertionAt(o, b).other == a
    ensures a in v.byId && b in v.byId
    ensures v.byId[a].agentId != v.byId[b].agentId && v.byId[a].repositoryId == v.byId[b].repositoryId
  {
  }

  /** Two evidence records that overlap were paired with each other by one and the same observation. */
  lemma OverlapIsMutual(events: set<Event>, lookup: Lookup, a: Change, b: Change) returns (o: Event)
    requires a in EvidenceOf(events, lookup) && b in EvidenceOf(events, lookup)
    requires Before(a.eventId, b.eventId) && Overlap(a, b).Some?
    ensures NoConflict(events)
    ensures a.eventId in ById(events) && b.eventId in ById(events)
    ensures SoundFinding(events, Overlap(a, b).value, ById(events)[a.eventId], ById(events)[b.eventId], o)
    ensures o.eventId == a.concurrencyEventId
    ensures Observed(events, ViewOf(events, lookup), a.eventId).Some? && Observed(events, ViewOf(events, lookup), a.eventId).value.other == b.eventId
    ensures Observed(events, ViewOf(events, lookup), b.eventId).Some? && Observed(events, ViewOf(events, lookup), b.eventId).value.other == a.eventId
  {
    hide Accepted, Covered, CoverageOf, Observed, MetadataMap;
    var v := ViewOf(events, lookup);
    var _, o1 := EvidenceIsGrounded(events, lookup, a);
    var _, o2 := EvidenceIsGrounded(events, lookup, b);
    o := o1;
    BeforeIsTotal(a.eventId, b.eventId);
    assert o2 == o;
    PairFromObservation(v, o, a.eventId, b.eventId);
    assert ById(events)[o.eventId] == o;
    assert o.body.Concurrency? && o.body.version3 && !o.source.Core? by { ObservationKind(v, o); }
  }

  lemma ObservationKind(v: View, o: Event)
    requires Accepted(v, o)
    ensures o.body.Concurrency? && o.body.version3 && !o.source.Core?
  {
  }

  /** Every finding is sound. */
  lemma FindingsAreSound(events: set<Event>, lookup: Lookup, f: Finding)
    requires f in FindingsOf(EvidenceOf(events, lookup))
    ensures exists first, second, o :: SoundFinding(events, f, first, second, o)
  {
    hide EvidenceOf, Overlap, SoundFinding, Covered;
    var changes := EvidenceOf(events, lookup);
    var a, b :| a in changes && b in changes && Before(a.eventId, b.eventId) && Overlap(a, b).Some? && f == Overlap(a, b).value;
    var o := OverlapIsMutual(events, lookup, a, b);
    assert SoundFinding(events, f, ById(events)[a.eventId], ById(events)[b.eventId], o);
  }

  /** Two sound findings that share an event have the same pair, if no change has two partners. */
  lemma SharedEventSharesPair(events: set<Event>, f: Finding, a: Event, b: Event, o: Event, g: Finding, c: Event, d: Event, p: Event, id: string)
    requires NoConflict(events) && SoundFinding(events, f, a, b, o) && SoundFinding(events, g, c, d, p)
    requires id in f.evidence.eventIds && id in g.evidence.eventIds
    requires a.eventId == c.eventId ==> b.eventId == d.eventId
    requires a.eventId == d.eventId ==> b.eventId == c.eventId
    requires b.eventId == c.eventId ==> a.eventId == d.eventId
    requires b.eventId == d.eventId ==> a.eventId == c.eventId
    ensures a.eventId == c.eventId && b.eventId == d.eventId
  {
    hide Before;
    BeforeIsTotal(a.eventId, b.eventId);
    BeforeIsTotal(c.eventId, d.eventId);
    assert id == a.eventId || id == b.eventId || id == o.eventId;
    assert id == c.eventId || id == d.eventId || id == p.eventId;
    if o.eventId == p.eventId {
      assert a.eventId in {c.eventId, d.eventId} && b.eventId in {c.eventId, d.eventId};
    }
  }

  /**
   * The findings form a matching: two findings that share any event, be it a change or an
   * observation, are the same finding.
   */
  lemma FindingsFormAMatching(events: set<Event>, lookup: Lookup, f: Finding, g: Finding, id: string)
    requires f in FindingsOf(EvidenceOf(events, lookup)) && g in FindingsOf(EvidenceOf(events, lookup))
    requires id in f.evidence.eventIds && id in g.evidence.eventIds
    ensures f == g
  {
    hide EvidenceOf, Covered, Observed, Accepted, MetadataMap;
    var changes := EvidenceOf(events, lookup);
    var a, b :| a in changes && b in changes && Before(a.eventId, b.eventId) && Overlap(a, b).Some? && f == Overlap(a, b).value;
    var c, d :| c in changes && d in changes && Before(c.eventId, d.eventId) && Overlap(c, d).Some? && g == Overlap(c, d).value;
    var o := OverlapIsMutual(events, lookup, a, b);
    var p := OverlapIsMutual(events, lookup, c, d);
    hide Overlap;
    var byId := ById(events);
    SharedEventSharesPair(events, f, byId[a.eventId], byId[b.eventId], o, g, byId[c.eventId], byId[d.eventId], p, id);
    EvidenceIsUnambiguous(events, lookup, a, c);
    EvidenceIsUnambiguous(events, lookup, b, d);
  }
}
