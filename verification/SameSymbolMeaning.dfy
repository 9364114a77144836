/**
 * What a same-symbol finding means, said about the stored events themselves: the reference against
 * which the derivation of `SameSymbol` is exact in both directions.
 */
module SameSymbolMeaning {
  import opened Options
  import opened Paths
  import opened Causation
  import opened SameSymbol
  import opened SameSymbolRuntime

  // ---- The reference ----

  ghost predicate AreCauses(events: set<Event>, causes: Causes) {
    && (forall e :: e in events ==> e.eventId in causes && causes[e.eventId] == e.causation)
    && (forall id :: id in causes ==> exists e :: e in events && e.eventId == id)
  }

  /** The nearest covered cause of the event, the event itself included, has this coverage. */
  ghost predicate IsCovered(events: set<Event>, lookup: Lookup, e: Event, coverageId: string) {
    exists causes :: AreCauses(events, causes) && WalkResult(causes, lookup, e.eventId, Some(coverageId))
  }

  /** Sufficient V3 evidence about the change. */
  predicate Asserts(e: Event, change: string) {
    e.body.Derived? && e.body.version3 && e.body.evidence.sufficient && e.body.evidence.targetEventId == change
  }

  /** `s` is a stored read or change and names this version. */
  predicate NamesVersion(s: Event, version: Version) {
    || s.body == Read(version)
    || s.body == FileChanged(version)
    || (s.body.SymbolChanged? && s.body.after == version)
  }

  /** The binding names one of the evidence's sources, which is stored, and carries the digest of its resource and version. */
  ghost predicate IsBound(events: set<Event>, d: Evidence) {
    exists s, version ::
      && s in events && s.eventId == d.binding.sourceEventId && s.eventId in d.sourceEventIds && NamesVersion(s, version)
      && d.binding == Binding(s.eventId, version.resourceId, version, DigestOf(version.resourceId, version))
  }

  /** All assertions about the change say the same, and `d` is the first of them. */
  ghost predicate Stands(events: set<Event>, d: Event, change: string) {
    && d in events && Asserts(d, change)
    && forall e :: e in events && Asserts(e, change) ==>
         e.body.evidence == d.body.evidence && (e.eventId == d.eventId || Before(d.eventId, e.eventId))
  }

  /** Of a symbol fact, hash-bound, bound to its source, and about a target that agrees in repository, snapshot and digest. */
  ghost predicate Fits(events: set<Event>, d: Evidence, target: Target) {
    && d.symbolFact && d.hashBoundProof && IsBound(events, d)
    && d.target.repositoryId == target.repositoryId && d.target.targetSnapshotId == target.targetSnapshotId
    && d.target.digest == target.digest
  }

  /** The change has evidence that stands for all there is, is covered, and fits. */
  ghost predicate IsBacked(events: set<Event>, lookup: Lookup, change: string, target: Target) {
    exists d, coverageId :: Stands(events, d, change) && IsCovered(events, lookup, d, coverageId) && Fits(events, d.body.evidence, target)
  }

  /** The change is stored as the observation describes it. */
  predicate IsAs(events: set<Event>, change: Event, id: string, agent: string, task: string, worktree: string) {
    && change in events && change.eventId == id && change.body.SymbolChanged?
    && change.agentId == Some(agent) && change.taskId == Some(task) && change.worktreeId == worktree
  }

  /** `o` observes `first` and `second`: rival changes of one symbol, both backed, under coverage of its own. */
  ghost predicate Observes(events: set<Event>, lookup: Lookup, o: Event, first: Event, second: Event) {
    && o in events && o.body.Concurrency? && o.body.version3 && o.source != Core
    && var w := o.body.observation;
       && IsCovered(events, lookup, o, w.coverageId)
       && IsAs(events, first, w.firstChange, w.firstAgent, w.firstTask, w.firstWorktree)
       && IsAs(events, second, w.secondChange, w.secondAgent, w.secondTask, w.secondWorktree)
       && first.repositoryId == second.repositoryId && first.body.resourceId == second.body.resourceId
       && w.firstAgent != w.secondAgent && w.firstTask != w.secondTask && w.firstWorktree != w.secondWorktree
       && IsBacked(events, lookup, first.eventId, w.target) && IsBacked(events, lookup, second.eventId, w.target)
  }

  /** `o` pairs the two changes, in either order. */
  ghost predicate Joins(events: set<Event>, lookup: Lookup, o: Event, a: Event, b: Event) {
    Observes(events, lookup, o, a, b) || Observes(events, lookup, o, b, a)
  }

  /** Whatever joins the change to another says what `o` says, and `o` is the first to say it. */
  ghost predicate Decides(events: set<Event>, lookup: Lookup, o: Event, a: Event, b: Event) {
    && Joins(events, lookup, o, a, b)
    && forall p, x :: Joins(events, lookup, p, a, x) ==>
         && x.eventId == b.eventId && p.body.observation.coverageId == o.body.observation.coverageId
         && p.body.observation.target.targetSnapshotId == o.body.observation.target.targetSnapshotId
         && p.body.observation.target.digest == o.body.observation.target.digest
         && (p.eventId == o.eventId || Before(o.eventId, p.eventId))
  }

  /** The finding about `a` and `b`, changes of a symbol to different values, that `o` decides. */
  ghost predicate Means(events: set<Event>, lookup: Lookup, f: Finding, a: Event, b: Event, o: Event) {
    && Decides(events, lookup, o, a, b) && Decides(events, lookup, o, b, a) && Before(a.eventId, b.eventId)
    && a.body.symbolKind && b.body.symbolKind
    && a.body.after.value.Some? && b.body.after.value.Some? && a.body.after.value != b.body.after.value
    && a.body.after == b.body.after.(value := a.body.after.value)
    && exists one, other ::
         && IsCovered(events, lookup, a, one) && IsCovered(events, lookup, b, other)
         && f == Finding(FindingEvidence(b.body.resourceId, b.taskId, multiset{a.eventId, b.eventId, o.eventId},
                                         {one, other, o.body.observation.coverageId}),
                         a.body.after.value, b.body.after.value)
  }

  // ---- The derivation agrees with it, part by part ----

  lemma CoveredIff(events: set<Event>, lookup: Lookup, e: Event, coverageId: string)
    requires NoConflict(events)
    ensures Covered(ViewOf(events, lookup), e) == Some(coverageId) <==> IsCovered(events, lookup, e, coverageId)
  {
    var causes := CausesOf(ById(events));
    assert AreCauses(events, causes);
    if IsCovered(events, lookup, e, coverageId) {
      var others :| AreCauses(events, others) && WalkResult(others, lookup, e.eventId, Some(coverageId));
      CausesAreUnique(events, causes, others);
      WalkIsUnique(causes, lookup, e.eventId, Some(coverageId), Covered(ViewOf(events, lookup), e));
    }
  }

  lemma CausesAreUnique(events: set<Event>, one: Causes, other: Causes)
    requires AreCauses(events, one) && AreCauses(events, other)
    ensures one == other
  {
    forall id ensures id in one <==> id in other
              ensures id in one ==> one[id] == other[id]
    {
      if id in one { var e :| e in events && e.eventId == id; }
      if id in other { var e :| e in events && e.eventId == id; }
    }
  }

  lemma BoundIff(events: set<Event>, d: Evidence)
    requires NoConflict(events)
    ensures SourceMatches(ById(events), d) <==> IsBound(events, d)
  {
    var byId := ById(events);
    var b := d.binding;
    if SourceMatches(byId, d) {
      var s := byId[b.sourceEventId];
      assert s in events && NamesVersion(s, VersionOf(s).value);
    }
    if IsBound(events, d) {
      var s, version :| s in events && s.eventId == b.sourceEventId && s.eventId in d.sourceEventIds && NamesVersion(s, version)
                        && b == Binding(s.eventId, version.resourceId, version, DigestOf(version.resourceId, version));
      assert byId[b.sourceEventId] == s && VersionOf(s) == Some(version);
    }
  }

  lemma StandsIff(events: set<Event>, d: Event, change: string)
    requires NoConflict(events)
    ensures Stands(events, d, change) <==> change in MetadataMap(events) && MetadataMap(events)[change] == d
  {
    MetadataOf(events, change);
    var group := DerivedAt(events, change);
    assert forall e :: e in group <==> e in events && Asserts(e, change);
    assert Stands(events, d, change) <==> IsChosen(group, d);
    if IsChosen(group, d) {
      ChosenIsUnique(group, d, Metadata(events, change).value);
    }
  }

  lemma FitsIff(events: set<Event>, d: Event, target: Target)
    requires NoConflict(events) && d.body.Derived?
    ensures SymbolProof(ById(events), d, target) <==> Fits(events, d.body.evidence, target)
  {
    BoundIff(events, d.body.evidence);
    hide SourceMatches, IsBound, ById;
  }

  lemma BackedIff(events: set<Event>, lookup: Lookup, change: string, target: Target)
    requires NoConflict(events)
    ensures var v := ViewOf(events, lookup);
            IsBacked(events, lookup, change, target)
            <==> change in v.metadata && SymbolProof(v.byId, v.metadata[change], target) && Covered(v, v.metadata[change]).Some?
  {
    var v := ViewOf(events, lookup);
    assert v.byId == ById(events) && v.metadata == MetadataMap(events);
    hide Covered, IsCovered, MetadataMap, ById, Fits, Stands, NoConflict, ViewOf;
    if IsBacked(events, lookup, change, target) {
      var d, coverageId :| Stands(events, d, change) && IsCovered(events, lookup, d, coverageId) && Fits(events, d.body.evidence, target);
      StandsIff(events, d, change);
      StandsIsDerived(events, d, change);
      FitsIff(events, d, target);
      CoveredIff(events, lookup, d, coverageId);
    }
    if change in v.metadata && SymbolProof(v.byId, v.metadata[change], target) && Covered(v, v.metadata[change]).Some? {
      var d := v.metadata[change];
      StandsIff(events, d, change);
      FitsIff(events, d, target);
      CoveredIff(events, lookup, d, Covered(v, d).value);
    }
  }

  lemma StandsIsDerived(events: set<Event>, d: Event, change: string)
    requires Stands(events, d, change)
    ensures d.body.Derived?
  {
  }

  lemma FoundById(events: set<Event>, id: string, e: Event)
    requires NoConflict(events)
    ensures id in ById(events) && ById(events)[id] == e <==> e in events && e.eventId == id
  {
  }

  /** An observation observes two changes exactly if it is accepted and they are the ones it names. */
  lemma ObservesIff(events: set<Event>, lookup: Lookup, o: Event, first: Event, second: Event)
    requires NoConflict(events) && o in events
    ensures var v := ViewOf(events, lookup);
            Observes(events, lookup, o, first, second)
            <==> Accepted(v, o) && v.byId[o.body.observation.firstChange] == first && v.byId[o.body.observation.secondChange] == second
  {
    var v := ViewOf(events, lookup);
    hide Agrees, Observes, Accepted;
    if Observes(events, lookup, o, first, second) {
      assert o.body.Concurrency? by { ObservesKind(events, lookup, o, first, second); }
      ViewAgrees(events, lookup, o);
      ObservedIsAccepted(events, lookup, v, o, first, second);
    }
    if Accepted(v, o) {
      AcceptedNames(v, o);
      if v.byId[o.body.observation.firstChange] == first && v.byId[o.body.observation.secondChange] == second {
        ViewAgrees(events, lookup, o);
        AcceptedIsObserved(events, lookup, v, o, first, second);
      }
    }
  }

  lemma ObservesKind(events: set<Event>, lookup: Lookup, o: Event, first: Event, second: Event)
    requires Observes(events, lookup, o, first, second)
    ensures o.body.Concurrency?
  {
  }

  lemma ViewAgrees(events: set<Event>, lookup: Lookup, o: Event)
    requires NoConflict(events) && o.body.Concurrency?
    ensures Agrees(events, lookup, ViewOf(events, lookup), o)
  {
    var w := o.body.observation;
    ViewHas(events, lookup);
    BackedIff(events, lookup, w.firstChange, w.target);
    BackedIff(events, lookup, w.secondChange, w.target);
    CoveredIff(events, lookup, o, w.coverageId);
    hide Covered, IsCovered, MetadataMap, ById, IsBacked, SymbolProof, ViewOf, NoConflict;
  }

  /** The view's lookups agree with the events about what `o` names. */
  ghost predicate Agrees(events: set<Event>, lookup: Lookup, v: View, o: Event) {
    && o.body.Concurrency?
    && (forall e :: e in events ==> e.eventId in v.byId && v.byId[e.eventId] == e)
    && (forall id :: id in v.byId ==> v.byId[id] in events && v.byId[id].eventId == id)
    && var w := o.body.observation;
       && (Covered(v, o) == Some(w.coverageId) <==> IsCovered(events, lookup, o, w.coverageId))
       && forall change :: change == w.firstChange || change == w.secondChange ==>
            (IsBacked(events, lookup, change, w.target)
             <==> change in v.metadata && SymbolProof(v.byId, v.metadata[change], w.target) && Covered(v, v.metadata[change]).Some?)
  }

  lemma ObservedIsAccepted(events: set<Event>, lookup: Lookup, v: View, o: Event, first: Event, second: Event)
    requires Agrees(events, lookup, v, o) && Observes(events, lookup, o, first, second)
    ensures Accepted(v, o) && v.byId[o.body.observation.firstChange] == first && v.byId[o.body.observation.secondChange] == second
  {
    hide Covered, IsCovered, IsBacked, SymbolProof;
    var w := o.body.observation;
    assert v.byId[w.firstChange] == first && v.byId[w.secondChange] == second;
    assert IsBacked(events, lookup, w.firstChange, w.target) && IsBacked(events, lookup, w.secondChange, w.target);
  }

  lemma AcceptedIsObserved(events: set<Event>, lookup: Lookup, v: View, o: Event, first: Event, second: Event)
    requires Agrees(events, lookup, v, o) && o in events && Accepted(v, o)
    requires v.byId[o.body.observation.firstChange] == first && v.byId[o.body.observation.secondChange] == second
    ensures Observes(events, lookup, o, first, second)
  {
    hide Covered, IsCovered, IsBacked, SymbolProof;
    var w := o.body.observation;
    assert IsBacked(events, lookup, w.firstChange, w.target) && IsBacked(events, lookup, w.secondChange, w.target);
  }

  lemma ViewHas(events: set<Event>, lookup: Lookup)
    requires NoConflict(events)
    ensures ViewOf(events, lookup).byId == ById(events)
    ensures forall e :: e in events ==> e.eventId in ById(events) && ById(events)[e.eventId] == e
    ensures forall id :: id in ById(events) ==> ById(events)[id] in events && ById(events)[id].eventId == id
  {
  }

  /** Two changes are joined exactly by the accepted observations that name both. */
  lemma JoinsIff(events: set<Event>, lookup: Lookup, o: Event, a: Event, b: Event)
    requires NoConflict(events)
    ensures Joins(events, lookup, o, a, b)
            <==> o in events && a in events && b in events && Accepted(ViewOf(events, lookup), o)
                 && Names(o.body.observation, a.eventId) && AssertionAt(o, a.eventId).other == b.eventId
  {
    var v := ViewOf(events, lookup);
    ViewHas(events, lookup);
    if o in events {
      ObservesIff(events, lookup, o, a, b);
      ObservesIff(events, lookup, o, b, a);
      if Accepted(v, o) { AcceptedNames(v, o); }
    }
    hide Accepted, ViewOf, ById, IsBacked, IsCovered;
  }

  lemma AcceptedNames(v: View, o: Event)
    requires Accepted(v, o)
    ensures o.body.Concurrency? && o.body.observation.firstChange in v.byId && o.body.observation.secondChange in v.byId
    ensures o.body.observation.firstChange != o.body.observation.secondChange
  {
  }

  /** What an observation asserts about a change is what it joins the change to. */
  lemma JoinsAsserts(events: set<Event>, lookup: Lookup, o: Event, a: Event, b: Event)
    requires NoConflict(events) && Joins(events, lookup, o, a, b)
    ensures o.body.Concurrency? && AssertionAt(o, a.eventId) in AssertionsAt(events, ViewOf(events, lookup), a.eventId)
    ensures AssertionAt(o, a.eventId) == Assertion(o.eventId, b.eventId, o.body.observation.target, o.body.observation.coverageId)
  {
    JoinsIff(events, lookup, o, a, b);
    hide Joins, ViewOf, NoConflict;
    AcceptedNames(ViewOf(events, lookup), o);
    hide Accepted;
  }

  lemma AssertionJoins(events: set<Event>, lookup: Lookup, assertion: Assertion, a: Event) returns (o: Event, b: Event)
    requires NoConflict(events) && a in events && assertion in AssertionsAt(events, ViewOf(events, lookup), a.eventId)
    ensures Joins(events, lookup, o, a, b) && o.body.Concurrency? && assertion == AssertionAt(o, a.eventId)
  {
    var v := ViewOf(events, lookup);
    ViewHas(events, lookup);
    hide NoConflict, ViewOf, Joins;
    o :| o in events && Accepted(v, o) && Names(o.body.observation, a.eventId) && AssertionAt(o, a.eventId) == assertion;
    AcceptedNames(v, o);
    hide Accepted;
    b := v.byId[assertion.other];
    JoinsIff(events, lookup, o, a, b);
  }

  /** The observation that decides a change is the one the derivation chooses for it. */
  lemma DecidesIff(events: set<Event>, lookup: Lookup, o: Event, a: Event, b: Event)
    requires NoConflict(events) && a in events && Joins(events, lookup, o, a, b)
    ensures o.body.Concurrency?
    ensures Decides(events, lookup, o, a, b) <==> Observed(events, ViewOf(events, lookup), a.eventId) == Some(AssertionAt(o, a.eventId))
  {
    JoinsAsserts(events, lookup, o, a, b);
    hide Joins, Accepted, AssertionsAt, ViewOf, NoConflict, IsObserved, Decides, Observed;
    ObservedIff(events, ViewOf(events, lookup), a.eventId, AssertionAt(o, a.eventId));
    if Decides(events, lookup, o, a, b) { DecidedIsObserved(events, lookup, o, a, b); }
    if IsObserved(AssertionsAt(events, ViewOf(events, lookup), a.eventId), AssertionAt(o, a.eventId)) { ObservedDecides(events, lookup, o, a, b); }
  }

  lemma ObservedIff(events: set<Event>, v: View, id: string, a: Assertion)
    requires NoConflict(events)
    ensures Observed(events, v, id) == Some(a) <==> IsObserved(AssertionsAt(events, v, id), a)
  {
    AssertionsHaveDistinctIds(events, v, id);
    hide AssertionsAt, NoConflict;
    if IsObserved(AssertionsAt(events, v, id), a) { ObservedIsUnique(AssertionsAt(events, v, id), a, Observed(events, v, id).value); }
  }

  lemma DecidedIsObserved(events: set<Event>, lookup: Lookup, o: Event, a: Event, b: Event)
    requires NoConflict(events) && a in events && o.body.Concurrency? && Decides(events, lookup, o, a, b)
    ensures IsObserved(AssertionsAt(events, ViewOf(events, lookup), a.eventId), AssertionAt(o, a.eventId))
  {
    hide Joins, AssertionsAt, ViewOf, NoConflict, Before;
    JoinsAsserts(events, lookup, o, a, b);
    var group, own := AssertionsAt(events, ViewOf(events, lookup), a.eventId), AssertionAt(o, a.eventId);
    forall x | x in group ensures KeyOf(x) == KeyOf(own) && (x.eventId == own.eventId || Before(own.eventId, x.eventId)) {
      var p, c := AssertionJoins(events, lookup, x, a);
      JoinsAsserts(events, lookup, p, a, c);
    }
  }

  lemma ObservedDecides(events: set<Event>, lookup: Lookup, o: Event, a: Event, b: Event)
    requires NoConflict(events) && Joins(events, lookup, o, a, b) && o.body.Concurrency?
    requires IsObserved(AssertionsAt(events, ViewOf(events, lookup), a.eventId), AssertionAt(o, a.eventId))
    ensures Decides(events, lookup, o, a, b)
  {
    hide Joins, AssertionsAt, ViewOf, NoConflict, Before;
    JoinsAsserts(events, lookup, o, a, b);
    forall p, x | Joins(events, lookup, p, a, x)
      ensures p.body.Concurrency? && AssertionAt(p, a.eventId) in AssertionsAt(events, ViewOf(events, lookup), a.eventId)
      ensures AssertionAt(p, a.eventId) == Assertion(p.eventId, x.eventId, p.body.observation.target, p.body.observation.coverageId)
    {
      JoinsAsserts(events, lookup, p, a, x);
    }
  }

  // ---- Findings ----

  /** A change has an evidence record exactly if some observation decides it, and it is one of a symbol and covered. */
  lemma EvidenceIff(events: set<Event>, lookup: Lookup, o: Event, a: Event, b: Event)
    requires NoConflict(events) && a in events && Decides(events, lookup, o, a, b)
    ensures IsEvidence(events, ViewOf(events, lookup), a) <==> a.body.SymbolChanged? && a.body.symbolKind && Covered(ViewOf(events, lookup), a).Some?
  {
    var v := ViewOf(events, lookup);
    DecidesIff(events, lookup, o, a, b);
    JoinsIff(events, lookup, o, a, b);
    JoinsAsserts(events, lookup, o, a, b);
    hide Joins, Decides, Observed, ViewOf, NoConflict, AssertionsAt;
    AcceptedBacks(v, o, a.eventId);
    hide Covered, Accepted, SymbolProof;
  }

  lemma AcceptedBacks(v: View, o: Event, id: string)
    requires Accepted(v, o) && Names(o.body.observation, id)
    ensures id in v.metadata && SymbolProof(v.byId, v.metadata[id], o.body.observation.target) && Covered(v, v.metadata[id]).Some?
  {
  }

  /** The findings of an event set are exactly what the reference means, and a set with conflicting IDs has none. */
  lemma FindingsMean(events: set<Event>, lookup: Lookup, f: Finding)
    ensures f in FindingsOf(EvidenceOf(events, lookup)) <==> NoConflict(events) && exists a, b, o :: Means(events, lookup, f, a, b, o)
  {
    if !NoConflict(events) { ConflictingYieldNothing(events, lookup); }
    hide Means, EvidenceOf;
    if NoConflict(events) && f in FindingsOf(EvidenceOf(events, lookup)) {
      hide Overlap;
      var c, d :| c in EvidenceOf(events, lookup) && d in EvidenceOf(events, lookup) && Before(c.eventId, d.eventId)
                  && Overlap(c, d).Some? && f == Overlap(c, d).value;
      var a, b, o := FoundIsMeant(events, lookup, c, d);
    }
    if a, b, o :| NoConflict(events) && Means(events, lookup, f, a, b, o) {
      var c, d := MeantIsFound(events, lookup, f, a, b, o);
    }
  }

  /** The evidence record of `a` that rests on the observation `o`. */
  ghost predicate IsRecord(events: set<Event>, lookup: Lookup, c: Change, a: Event, o: Event)
    requires NoConflict(events)
  {
    && a in events && a.body.SymbolChanged? && a.body.symbolKind && o in events && o.body.Concurrency?
    && Covered(ViewOf(events, lookup), a) == Some(c.coverageId) && c == ChangeOf(a, c.coverageId, AssertionAt(o, a.eventId))
  }

  lemma GroundedIsRecord(events: set<Event>, lookup: Lookup, c: Change, a: Event, o: Event)
    requires NoConflict(events) && Grounded(ViewOf(events, lookup), events, c, a, o)
    ensures IsRecord(events, lookup, c, a, o) && Accepted(ViewOf(events, lookup), o) && Names(o.body.observation, a.eventId)
    ensures Observed(events, ViewOf(events, lookup), a.eventId) == Some(AssertionAt(o, a.eventId))
  {
    ViewHas(events, lookup);
    hide Covered, Observed, SymbolProof, MetadataMap, ViewOf, NoConflict, Consistent;
  }

  lemma FoundIsMeant(events: set<Event>, lookup: Lookup, c: Change, d: Change) returns (a: Event, b: Event, o: Event)
    requires NoConflict(events) && c in EvidenceOf(events, lookup) && d in EvidenceOf(events, lookup)
    requires Before(c.eventId, d.eventId) && Overlap(c, d).Some?
    ensures Means(events, lookup, Overlap(c, d).value, a, b, o)
  {
    hide EvidenceOf, Grounded, Means, Overlap, IsRecord, ViewOf, Observed, Accepted, Decides;
    var p, q;
    a, p := EvidenceIsGrounded(events, lookup, c);
    b, q := EvidenceIsGrounded(events, lookup, d);
    o := p;
    var _ := OverlapIsMutual(events, lookup, c, d);
    GroundedIsRecord(events, lookup, c, a, p);
    GroundedIsRecord(events, lookup, d, b, q);
    RecordNames(events, lookup, c, a, p, d, b, q);
    hide NoConflict;
    BothDecide(events, lookup, a, b, p);
    RecordsMean(events, lookup, c, a, d, b, p);
  }

  lemma RecordNames(events: set<Event>, lookup: Lookup, c: Change, a: Event, p: Event, d: Change, b: Event, q: Event)
    requires NoConflict(events) && IsRecord(events, lookup, c, a, p) && IsRecord(events, lookup, d, b, q) && Overlap(c, d).Some?
    ensures p == q && a in events && b in events && p in events && a.eventId == c.eventId && b.eventId == d.eventId && p.body.Concurrency?
  {
    hide Covered, ViewOf;
  }

  lemma BothDecide(events: set<Event>, lookup: Lookup, a: Event, b: Event, o: Event)
    requires NoConflict(events) && a in events && b in events && o in events && Accepted(ViewOf(events, lookup), o)
    requires Names(o.body.observation, a.eventId) && Names(o.body.observation, b.eventId)
    requires AssertionAt(o, a.eventId).other == b.eventId && AssertionAt(o, b.eventId).other == a.eventId
    requires Observed(events, ViewOf(events, lookup), a.eventId) == Some(AssertionAt(o, a.eventId))
    requires Observed(events, ViewOf(events, lookup), b.eventId) == Some(AssertionAt(o, b.eventId))
    ensures Decides(events, lookup, o, a, b) && Decides(events, lookup, o, b, a)
  {
    hide Accepted, Observed, ViewOf, Joins, Decides, NoConflict;
    JoinsIff(events, lookup, o, a, b);
    JoinsIff(events, lookup, o, b, a);
    DecidesIff(events, lookup, o, a, b);
    DecidesIff(events, lookup, o, b, a);
  }

  lemma RecordsMean(events: set<Event>, lookup: Lookup, c: Change, a: Event, d: Change, b: Event, o: Event)
    requires NoConflict(events) && IsRecord(events, lookup, c, a, o) && IsRecord(events, lookup, d, b, o)
    requires Overlap(c, d).Some? && Before(a.eventId, b.eventId)
    requires Decides(events, lookup, o, a, b) && Decides(events, lookup, o, b, a)
    ensures Means(events, lookup, Overlap(c, d).value, a, b, o)
  {
    CoveredIff(events, lookup, a, c.coverageId);
    CoveredIff(events, lookup, b, d.coverageId);
    hide Covered, ViewOf, NoConflict, Decides, IsCovered, Before;
  }

  lemma MeantIsFound(events: set<Event>, lookup: Lookup, f: Finding, a: Event, b: Event, o: Event) returns (c: Change, d: Change)
    requires NoConflict(events) && Means(events, lookup, f, a, b, o)
    ensures c in EvidenceOf(events, lookup) && d in EvidenceOf(events, lookup) && Before(c.eventId, d.eventId)
    ensures Overlap(c, d) == Some(f)
  {
    hide Decides, IsCovered, EvidenceOf, NoConflict, Joins, Before;
    DecidedKind(events, lookup, o, a, b);
    DecidedKind(events, lookup, o, b, a);
    var one, other :|
      && IsCovered(events, lookup, a, one) && IsCovered(events, lookup, b, other)
      && f == Finding(FindingEvidence(b.body.resourceId, b.taskId, multiset{a.eventId, b.eventId, o.eventId}, {one, other, o.body.observation.coverageId}),
                      a.body.after.value, b.body.after.value);
    c, d := ChangeOf(a, one, AssertionAt(o, a.eventId)), ChangeOf(b, other, AssertionAt(o, b.eventId));
    DecidedIsEvidence(events, lookup, o, a, b, one);
    DecidedIsEvidence(events, lookup, o, b, a, other);
  }

  lemma DecidedKind(events: set<Event>, lookup: Lookup, o: Event, a: Event, b: Event)
    requires Decides(events, lookup, o, a, b)
    ensures o.body.Concurrency? && a in events && a.body.SymbolChanged? && a.agentId.Some? && a.taskId.Some?
    ensures a.taskId != b.taskId && a.worktreeId != b.worktreeId && b.body.SymbolChanged? && a.body.resourceId == b.body.resourceId
  {
    hide IsBacked, IsCovered;
  }

  lemma DecidedIsEvidence(events: set<Event>, lookup: Lookup, o: Event, a: Event, b: Event, coverageId: string)
    requires NoConflict(events) && a in events && o.body.Concurrency? && a.body.SymbolChanged? && a.body.symbolKind
    requires Decides(events, lookup, o, a, b) && IsCovered(events, lookup, a, coverageId)
    ensures ChangeOf(a, coverageId, AssertionAt(o, a.eventId)) in EvidenceOf(events, lookup)
  {
    CoveredIff(events, lookup, a, coverageId);
    EvidenceIff(events, lookup, o, a, b);
    assert Joins(events, lookup, o, a, b);
    DecidesIff(events, lookup, o, a, b);
    hide Covered, Observed, IsEvidence, NoConflict, Decides, Joins, MetadataMap;
  }
}
