/**
 * The coverage table of packages/storage/src/work-graph-coverage.ts, one row for each tool request,
 * derived from the events in causal order. Rows that can never be sufficient are left out.
 */
module WorkGraph {
  import opened Options
  import opened Causation
  import opened SameSymbol
  import opened Replay

  datatype Mode = Intercepted | Verified | Unknown

  datatype Gap = CompletionAbsent | EffectAbsent(effect: string) | OriginUnproven(effect: string) | OpaqueEffects

  /** What a coverage ID is a digest of; the sorted lists of the original are determined by these collections. */
  datatype Identity = Identity(scope: string, modes: set<Mode>, gaps: multiset<Gap>, evidence: set<string>)

  type Digest = Identity -> string

  ghost predicate Injective(digest: Digest) {
    forall a, b :: digest(a) == digest(b) ==> a == b
  }

  predicate IsChange(e: Event) {
    e.body.FileChanged? || e.body.SymbolChanged?
  }

  // ---- A row, by scanning the events ----

  /** The last completion of the request. */
  function CompletionOf(events: seq<Event>, request: string): Option<Event> {
    if events == [] then None
    else
      var last := events[|events| - 1];
      if last.body.Completed? && last.body.requestEventId == request then Some(last) else CompletionOf(events[..|events| - 1], request)
  }

  lemma {:induction false} CompletionIsCompletion(events: seq<Event>, request: string)
    ensures var c := CompletionOf(events, request);
            c.Some? ==> c.value in events && c.value.body.Completed? && c.value.body.requestEventId == request
    ensures CompletionOf(events, request).None? <==> forall e :: e in events ==> !(e.body.Completed? && e.body.requestEventId == request)
  {
    if events != [] {
      var front, last := events[..|events| - 1], events[|events| - 1];
      CompletionIsCompletion(front, request);
      assert events == front + [last];
    }
  }

  function ReadsOf(all: set<Event>, request: string): set<string> {
    set e | e in all && e.body.Read? && e.causation == Some(request) :: e.eventId
  }

  /** The changes an observation bound to the completion. */
  function BoundTo(all: set<Event>, completion: string): set<string> {
    set e | e in all && IsChange(e) && e.causation == Some(completion) :: e.eventId
  }

  predicate OnRecord(byId: map<string, Event>, effect: string) {
    effect in byId && IsChange(byId[effect])
  }

  /** What is wrong with an effect the completion declares. */
  function EffectGap(byId: map<string, Event>, attributed: seq<string>, effect: string): Option<Gap> {
    if !OnRecord(byId, effect) then Some(EffectAbsent(effect))
    else if byId[effect].source.Watcher? && effect !in attributed then Some(OriginUnproven(effect))
    else None
  }

  function EffectGaps(byId: map<string, Event>, attributed: seq<string>, effects: seq<string>): multiset<Gap> {
    if effects == [] then multiset{}
    else
      var gap := EffectGap(byId, attributed, effects[|effects| - 1]);
      EffectGaps(byId, attributed, effects[..|effects| - 1]) + if gap.Some? then multiset{gap.value} else multiset{}
  }

  lemma {:induction false} NoGapsIff(byId: map<string, Event>, attributed: seq<string>, effects: seq<string>)
    ensures EffectGaps(byId, attributed, effects) == multiset{}
            <==> forall effect :: effect in effects ==> EffectGap(byId, attributed, effect) == None
  {
    if effects != [] {
      hide EffectGap;
      var front, last := effects[..|effects| - 1], effects[|effects| - 1];
      var gap := EffectGap(byId, attributed, last);
      assert EffectGaps(byId, attributed, effects) == EffectGaps(byId, attributed, front) + if gap.Some? then multiset{gap.value} else multiset{};
      NoGapsIff(byId, attributed, front);
      hide EffectGaps;
      if gap.Some? { assert gap.value in EffectGaps(byId, attributed, effects); }
      assert effects == front + [last];
      forall effect ensures effect in effects <==> effect in front || effect == last { }
    }
  }

  /** The identity of a request's row, from its completion, the reads it caused and the changes bound to the completion. */
  function IdentityOf(r: Event, completion: Option<Event>, byId: map<string, Event>, readIds: set<string>, bound: set<string>): Identity
    requires r.body.Requested? && (completion.Some? ==> completion.value.body.Completed?)
  {
    var scope := "tool:" + r.eventId;
    match completion
    case None => Identity(scope, {Intercepted} + {Unknown}, multiset{CompletionAbsent}, {r.eventId})
    case Some(c) =>
      var declared := c.body.effectEventIds;
      var gaps := EffectGaps(byId, c.body.attributed, declared);
      var observed := declared != [] || bound != {};
      var evidence := {r.eventId} + {c.eventId} + readIds + (set effect | effect in declared && OnRecord(byId, effect)) + bound;
      if r.body.opaqueCall && !(observed && gaps == multiset{}) then
        Identity(scope, {Intercepted} + {Unknown}, gaps + multiset{OpaqueEffects}, evidence)
      else if (observed || readIds != {}) && gaps == multiset{} then
        Identity(scope, {Intercepted} + {Verified}, gaps, evidence)
      else
        Identity(scope, {Intercepted} + {Unknown}, gaps, evidence)
  }

  /** `createCoverage`: sufficient is what has no gap and was verified. */
  function RowFor(identity: Identity, digest: Digest): CoverageEntry {
    CoverageEntry(digest(identity), identity.gaps == multiset{} && Verified in identity.modes, identity.evidence)
  }

  ghost function RowOf(events: seq<Event>, r: Event, digest: Digest): CoverageEntry
    requires NoConflict(Elements(events)) && r.body.Requested?
  {
    CompletionIsCompletion(events, r.eventId);
    RowFor(IdentityAt(events, r), digest)
  }

  ghost function IdentityAt(events: seq<Event>, r: Event): Identity
    requires NoConflict(Elements(events)) && r.body.Requested?
  {
    CompletionIsCompletion(events, r.eventId);
    var all, completion := Elements(events), CompletionOf(events, r.eventId);
    IdentityOf(r, completion, ById(all), ReadsOf(all, r.eventId), if completion.Some? then BoundTo(all, completion.value.eventId) else {})
  }

  /** `c` is the last completion of the request in the list. */
  ghost predicate IsLastCompletion(events: seq<Event>, request: string, c: Event) {
    exists k :: 0 <= k < |events| && events[k] == c && Completes(c, request)
                && forall j :: k < j < |events| ==> !Completes(events[j], request)
  }

  ghost predicate Completes(e: Event, request: string) {
    e.body.Completed? && e.body.requestEventId == request
  }

  lemma {:induction false} CompletionFound(events: seq<Event>, request: string, k: nat)
    requires k < |events| && Completes(events[k], request) && forall j :: k < j < |events| ==> !Completes(events[j], request)
    ensures CompletionOf(events, request) == Some(events[k])
  {
    if k < |events| - 1 { CompletionFound(events[..|events| - 1], request, k); }
  }

  lemma {:induction false} CompletionPlace(events: seq<Event>, request: string) returns (k: nat)
    requires CompletionOf(events, request).Some?
    ensures k < |events| && events[k] == CompletionOf(events, request).value && Completes(events[k], request)
    ensures forall j :: k < j < |events| ==> !Completes(events[j], request)
  {
    var last := events[|events| - 1];
    k := |events| - 1;
    if !Completes(last, request) { k := CompletionPlace(events[..|events| - 1], request); }
  }

  lemma LastCompletion(events: seq<Event>, request: string)
    ensures CompletionOf(events, request).Some? ==> IsLastCompletion(events, request, CompletionOf(events, request).value)
    ensures forall c :: IsLastCompletion(events, request, c) ==> CompletionOf(events, request) == Some(c)
  {
    hide CompletionOf;
    if CompletionOf(events, request).Some? {
      var k := CompletionPlace(events, request);
    }
    forall c | IsLastCompletion(events, request, c) ensures CompletionOf(events, request) == Some(c) {
      var k: nat :| k < |events| && events[k] == c && Completes(c, request) && forall j :: k < j < |events| ==> !Completes(events[j], request);
      CompletionFound(events, request, k);
    }
  }

  /** An event of the list with this ID is a file or symbol change. */
  ghost predicate Changed(events: seq<Event>, id: string) {
    exists e :: e in events && e.eventId == id && (e.body.FileChanged? || e.body.SymbolChanged?)
  }

  /** The event is a file or symbol change that names the cause. */
  ghost predicate ChangedUnder(events: seq<Event>, cause: string, id: string) {
    exists e :: e in events && e.eventId == id && (e.body.FileChanged? || e.body.SymbolChanged?) && e.causation == Some(cause)
  }

  ghost predicate ReadUnder(events: seq<Event>, cause: string, id: string) {
    exists e :: e in events && e.eventId == id && e.body.Read? && e.causation == Some(cause)
  }

  /** A declared effect is a change in the list, attributed if only the watcher saw it. */
  ghost predicate Proven(events: seq<Event>, c: Event, effect: string)
    requires c.body.Completed?
  {
    exists e :: e in events && e.eventId == effect && (e.body.FileChanged? || e.body.SymbolChanged?)
                && (e.source.Watcher? ==> effect in c.body.attributed)
  }

  lemma CollectionsAre(events: seq<Event>, cause: string, id: string)
    requires NoConflict(Elements(events))
    ensures id in ReadsOf(Elements(events), cause) <==> ReadUnder(events, cause, id)
    ensures id in BoundTo(Elements(events), cause) <==> ChangedUnder(events, cause, id)
    ensures OnRecord(ById(Elements(events)), id) <==> Changed(events, id)
  {
  }

  lemma EffectIsProven(events: seq<Event>, c: Event, effect: string)
    requires NoConflict(Elements(events)) && c.body.Completed?
    ensures EffectGap(ById(Elements(events)), c.body.attributed, effect) == None <==> Proven(events, c, effect)
  {
    CollectionsAre(events, "", effect);
  }

  /** What a row needs to be sufficient, in terms of the events alone. */
  ghost predicate Supported(events: seq<Event>, r: Event, c: Event)
    requires r.body.Requested? && c.body.Completed?
  {
    && (forall effect :: effect in c.body.effectEventIds ==> Proven(events, c, effect))
    && (c.body.effectEventIds != [] || (exists id :: ChangedUnder(events, c.eventId, id))
        || (!r.body.opaqueCall && exists id :: ReadUnder(events, r.eventId, id)))
  }

  /**
   * A tool call is sufficiently covered exactly when it completed, every effect its last completion
   * declares is on record with a proven origin, and something was seen of it: an effect, or, unless
   * the call is opaque, a read.
   */
  lemma SufficientIff(events: seq<Event>, r: Event, digest: Digest)
    requires NoConflict(Elements(events)) && r.body.Requested?
    ensures RowOf(events, r, digest).sufficient
            <==> exists c :: IsLastCompletion(events, r.eventId, c) && c.body.Completed? && Supported(events, r, c)
  {
    CompletionIsCompletion(events, r.eventId);
    LastCompletion(events, r.eventId);
    var completion := CompletionOf(events, r.eventId);
    if completion.Some? {
      SupportedIff(events, r, completion.value, digest);
    } else {
      assert CompletionAbsent in multiset{CompletionAbsent};
    }
  }

  lemma SupportedIff(events: seq<Event>, r: Event, c: Event, digest: Digest)
    requires NoConflict(Elements(events)) && r.body.Requested? && CompletionOf(events, r.eventId) == Some(c) && c.body.Completed?
    ensures RowOf(events, r, digest).sufficient <==> Supported(events, r, c)
  {
    var all := Elements(events);
    NoGapsIff(ById(all), c.body.attributed, c.body.effectEventIds);
    assert OpaqueEffects in EffectGaps(ById(all), c.body.attributed, c.body.effectEventIds) + multiset{OpaqueEffects};
    forall effect ensures EffectGap(ById(all), c.body.attributed, effect) == None <==> Proven(events, c, effect) {
      EffectIsProven(events, c, effect);
    }
    forall id: string ensures id in ReadsOf(all, r.eventId) <==> ReadUnder(events, r.eventId, id) { CollectionsAre(events, r.eventId, id); }
    forall id: string ensures id in BoundTo(all, c.eventId) <==> ChangedUnder(events, c.eventId, id) { CollectionsAre(events, c.eventId, id); }
    hide EffectGap, EffectGaps, Proven, ReadUnder, ChangedUnder, ReadsOf, BoundTo, ById, Elements, CompletionOf;
    assert (exists id :: ReadUnder(events, r.eventId, id)) <==> ReadsOf(all, r.eventId) != {};
    assert (exists id :: ChangedUnder(events, c.eventId, id)) <==> BoundTo(all, c.eventId) != {};
  }

  /**
   * The events a row covers: the request and, once it completed, the last completion, the reads the
   * request caused, the declared effects on record and the changes bound to the completion.
   */
  lemma HoldsIff(events: seq<Event>, r: Event, digest: Digest, id: string)
    requires NoConflict(Elements(events)) && r.body.Requested?
    ensures id in RowOf(events, r, digest).evidenceEventIds <==>
              || id == r.eventId
              || exists c :: IsLastCompletion(events, r.eventId, c) && c.body.Completed?
                             && (|| id == c.eventId || ReadUnder(events, r.eventId, id) || ChangedUnder(events, c.eventId, id)
                                 || (id in c.body.effectEventIds && Changed(events, id)))
  {
    CompletionIsCompletion(events, r.eventId);
    LastCompletion(events, r.eventId);
    CollectionsAre(events, r.eventId, id);
    var completion := CompletionOf(events, r.eventId);
    if completion.Some? { CollectionsAre(events, completion.value.eventId, id); }
    hide ReadsOf, BoundTo, OnRecord, ById, Elements, CompletionOf, EffectGaps, IsLastCompletion, ReadUnder, ChangedUnder, Changed;
  }

  // ---- The table ----

  function RequestsOf(events: seq<Event>): seq<Event> {
    if events == [] then []
    else
      var last := events[|events| - 1];
      RequestsOf(events[..|events| - 1]) + if last.body.Requested? then [last] else []
  }

  lemma {:induction false} RequestsAre(events: seq<Event>)
    ensures forall r :: r in RequestsOf(events) <==> r in events && r.body.Requested?
  {
    if events != [] {
      var front, last := events[..|events| - 1], events[|events| - 1];
      RequestsAre(front);
      forall r ensures r in events <==> r in front || r == last { assert events == front + [last]; }
    }
  }

  lemma {:induction false} RequestsDoNotRepeat(events: seq<Event>)
    requires NoRepeats(events)
    ensures NoRepeats(RequestsOf(events))
  {
    if events != [] {
      var front, last := events[..|events| - 1], events[|events| - 1];
      assert forall i :: 0 <= i < |front| ==> front[i] == events[i];
      RequestsDoNotRepeat(front);
      RequestsAre(front);
      var requests := RequestsOf(front);
      forall i | 0 <= i < |requests| ensures requests[i].eventId != last.eventId {
        assert requests[i] in requests;
        var k :| 0 <= k < |front| && front[k] == requests[i];
      }
    }
  }

  ghost predicate IsRow(events: seq<Event>, r: Event, digest: Digest, row: CoverageEntry)
    requires NoConflict(Elements(events))
  {
    r in events && r.body.Requested? && row == RowOf(events, r, digest)
  }

  ghost predicate IsTable(events: seq<Event>, digest: Digest, table: seq<CoverageEntry>)
    requires NoConflict(Elements(events))
  {
    var requests := RequestsOf(events);
    |table| == |requests| && forall i :: 0 <= i < |table| ==> IsRow(events, requests[i], digest, table[i])
  }

  /** Scopes name their request, so no two rows of a table share a coverage ID. */
  lemma RowsHaveTheirOwnIds(events: seq<Event>, digest: Digest, table: seq<CoverageEntry>)
    requires NoRepeats(events) && NoConflict(Elements(events)) && Injective(digest) && IsTable(events, digest, table)
    ensures DistinctIds(table)
  {
    RequestsDoNotRepeat(events);
    var requests := RequestsOf(events);
    hide RequestsOf, NoConflict, Elements, IdentityAt;
    forall i, j | 0 <= i < j < |table| ensures table[i].coverageId != table[j].coverageId {
      ScopeNamesRequest(events, requests[i], digest);
      ScopeNamesRequest(events, requests[j], digest);
    }
  }

  lemma ScopeNamesRequest(events: seq<Event>, r: Event, digest: Digest)
    requires NoConflict(Elements(events)) && r.body.Requested?
    ensures RowOf(events, r, digest).coverageId == digest(IdentityAt(events, r))
    ensures |IdentityAt(events, r).scope| >= 5 && IdentityAt(events, r).scope[5..] == r.eventId
  {
    CompletionIsCompletion(events, r.eventId);
    hide EffectGaps;
    assert ("tool:" + r.eventId)[5..] == r.eventId;
  }

  /** On the table of any event list without repeated IDs, the walks of gateway, proxy and deriver answer alike from every event. */
  lemma ProjectedWalksAgree(events: seq<Event>, digest: Digest, table: seq<CoverageEntry>, causes: Causes, rows: Lookup, ids: Lookup, id: string)
    requires NoRepeats(events) && NoConflict(Elements(events)) && Injective(digest) && IsTable(events, digest, table)
    requires IsRowLookup(table, rows) && IsIdLookup(table, ids)
    ensures CoverageOf(causes, rows, id) == CoverageOf(causes, ids, id)
  {
    RowsHaveTheirOwnIds(events, digest, table);
    WalksAgree(causes, table, rows, ids, id);
  }

  // ---- The loops ----

  /** The events an index holds under a cause. */
  ghost predicate IsIndex(index: map<string, seq<string>>, all: set<Event>, forReads: bool) {
    forall cause :: Elements(At(index, cause)) == if forReads then ReadsOf(all, cause) else BoundTo(all, cause)
  }

  lemma OneMoreEffect(byId: map<string, Event>, attributed: seq<string>, declared: seq<string>, k: nat)
    requires k < |declared|
    ensures var gap := EffectGap(byId, attributed, declared[k]);
            EffectGaps(byId, attributed, declared[..k + 1])
            == EffectGaps(byId, attributed, declared[..k]) + if gap.Some? then multiset{gap.value} else multiset{}
    ensures (set effect | effect in declared[..k + 1] && OnRecord(byId, effect))
            == (set effect | effect in declared[..k] && OnRecord(byId, effect)) + if OnRecord(byId, declared[k]) then {declared[k]} else {}
  {
    assert declared[..k + 1][..k] == declared[..k];
    assert declared[..k + 1] == declared[..k] + [declared[k]];
  }

  /** The loop over the declared effects: those on record, and what is wrong with any. */
  method CheckEffects(byId: map<string, Event>, attributed: seq<string>, declared: seq<string>) returns (gaps: multiset<Gap>, seen: set<string>)
    ensures gaps == EffectGaps(byId, attributed, declared)
    ensures seen == set effect | effect in declared && OnRecord(byId, effect)
  {
    gaps, seen := multiset{}, {};
    for k := 0 to |declared|
      invariant gaps == EffectGaps(byId, attributed, declared[..k])
      invariant seen == set effect | effect in declared[..k] && OnRecord(byId, effect)
    {
      var effect := declared[k];
      OneMoreEffect(byId, attributed, declared, k);
      hide EffectGaps;
      if !OnRecord(byId, effect) {
        gaps := gaps + multiset{EffectAbsent(effect)};
      } else {
        seen := seen + {effect};
        if byId[effect].source.Watcher? && effect !in attributed { gaps := gaps + multiset{OriginUnproven(effect)}; }
      }
    }
    assert declared[..|declared|] == declared;
  }

  method ToolCoverage(r: Event, completion: Option<Event>, byId: map<string, Event>,
                      effectsByCause: map<string, seq<string>>, readsByCause: map<string, seq<string>>, digest: Digest)
    returns (row: CoverageEntry)
    requires r.body.Requested? && (completion.Some? ==> completion.value.body.Completed?)
    ensures row == RowFor(IdentityOf(r, completion, byId, Elements(At(readsByCause, r.eventId)),
                                     if completion.Some? then Elements(At(effectsByCause, completion.value.eventId)) else {}), digest)
  {
    var evidence, modes := {r.eventId}, {Intercepted};
    if completion.None? {
      modes := modes + {Unknown};
      return RowFor(Identity("tool:" + r.eventId, modes, multiset{CompletionAbsent}, evidence), digest);
    }
    var c := completion.value;
    var observedReads, bound, declared := At(readsByCause, r.eventId), At(effectsByCause, c.eventId), c.body.effectEventIds;
    evidence := evidence + {c.eventId} + Elements(observedReads);
    var gaps, seen := CheckEffects(byId, c.body.attributed, declared);
    evidence := evidence + seen + Elements(bound);
    EmptyElements(observedReads);
    EmptyElements(bound);
    hide EffectGaps, At, Elements;
    var effectsObserved := declared != [] || bound != [];
    var effectsBound := effectsObserved && gaps == multiset{};
    if r.body.opaqueCall && !effectsBound {
      gaps := gaps + multiset{OpaqueEffects};
      modes := modes + {Unknown};
    } else if (effectsObserved || observedReads != []) && gaps == multiset{} {
      modes := modes + {Verified};
    } else {
      modes := modes + {Unknown};
    }
    return RowFor(Identity("tool:" + r.eventId, modes, gaps, evidence), digest);
  }

  lemma EmptyElements<T>(xs: seq<T>)
    ensures Elements(xs) == {} <==> xs == []
  {
    assert xs != [] ==> xs[0] in Elements(xs);
  }

  lemma IndexStep(events: seq<Event>, i: nat)
    requires i < |events|
    ensures forall cause :: ReadsOf(Elements(events[..i + 1]), cause)
                            == ReadsOf(Elements(events[..i]), cause) + if events[i].body.Read? && events[i].causation == Some(cause) then {events[i].eventId} else {}
    ensures forall cause :: BoundTo(Elements(events[..i + 1]), cause)
                            == BoundTo(Elements(events[..i]), cause) + if IsChange(events[i]) && events[i].causation == Some(cause) then {events[i].eventId} else {}
    ensures events[..i + 1][..i] == events[..i]
  {
    assert events[..i + 1] == events[..i] + [events[i]];
    ElementsOfPrefix(events, i);
  }

  /** One more event under its cause. */
  function AddTo(index: map<string, seq<string>>, e: Event): (more: map<string, seq<string>>)
    ensures forall cause :: Elements(At(more, cause)) == Elements(At(index, cause)) + if e.causation == Some(cause) then {e.eventId} else {}
  {
    if e.causation == None then index
    else
      var cause := e.causation.value;
      ElementsOfAppend(At(index, cause), e.eventId);
      index[cause := At(index, cause) + [e.eventId]]
  }

  method BuildIndexes(events: seq<Event>)
    returns (completionsByRequest: map<string, Event>, effectsByCause: map<string, seq<string>>, readsByCause: map<string, seq<string>>)
    ensures forall id :: (if id in completionsByRequest then Some(completionsByRequest[id]) else None) == CompletionOf(events, id)
    ensures IsIndex(effectsByCause, Elements(events), false) && IsIndex(readsByCause, Elements(events), true)
  {
    completionsByRequest, effectsByCause, readsByCause := map[], map[], map[];
    for i := 0 to |events|
      invariant forall id :: (if id in completionsByRequest then Some(completionsByRequest[id]) else None) == CompletionOf(events[..i], id)
      invariant IsIndex(effectsByCause, Elements(events[..i]), false)
      invariant IsIndex(readsByCause, Elements(events[..i]), true)
    {
      hide ReadsOf, BoundTo, Elements, At;
      var event := events[i];
      IndexStep(events, i);
      if event.body.Completed? { completionsByRequest := completionsByRequest[event.body.requestEventId := event]; }
      if IsChange(event) { effectsByCause := AddTo(effectsByCause, event); }
      if event.body.Read? { readsByCause := AddTo(readsByCause, event); }
    }
    assert events[..|events|] == events;
  }

  /** `deriveProjectionCoverage`: one pass for the indexes, one for the rows. */
  method DeriveProjectionCoverage(events: seq<Event>, digest: Digest) returns (table: seq<CoverageEntry>)
    requires NoConflict(Elements(events))
    ensures IsTable(events, digest, table)
  {
    var byId := MapById(events);
    var completionsByRequest, effectsByCause, readsByCause := BuildIndexes(events);
    table := [];
    for i := 0 to |events|
      invariant |table| == |RequestsOf(events[..i])|
      invariant forall k :: 0 <= k < |table| ==> IsRow(events, RequestsOf(events[..i])[k], digest, table[k])
    {
      hide IsRow, NoConflict, CompletionOf, ById, Elements;
      var event := events[i];
      assert events[..i + 1][..i] == events[..i];
      if event.body.Requested? {
        CompletionIsCompletion(events, event.eventId);
        var completion := if event.eventId in completionsByRequest then Some(completionsByRequest[event.eventId]) else None;
        assert completion == CompletionOf(events, event.eventId);
        var row := ToolCoverage(event, completion, byId, effectsByCause, readsByCause, digest);
        RowIsRow(events, event, digest, completion, byId, effectsByCause, readsByCause);
        table := table + [row];
      }
    }
    assert events[..|events|] == events;
  }

  lemma RowIsRow(events: seq<Event>, r: Event, digest: Digest, completion: Option<Event>, byId: map<string, Event>,
                 effectsByCause: map<string, seq<string>>, readsByCause: map<string, seq<string>>)
    requires NoConflict(Elements(events)) && r in events && r.body.Requested?
    requires completion == CompletionOf(events, r.eventId) && (completion.Some? ==> completion.value.body.Completed?)
    requires byId == ById(Elements(events)) && IsIndex(effectsByCause, Elements(events), false) && IsIndex(readsByCause, Elements(events), true)
    ensures IsRow(events, r, digest,
                  RowFor(IdentityOf(r, completion, byId, Elements(At(readsByCause, r.eventId)),
                                    if completion.Some? then Elements(At(effectsByCause, completion.value.eventId)) else {}), digest))
  {
    hide IdentityOf;
  }

  // ---- The lookup of an event list ----

  ghost function TableOf(events: seq<Event>, digest: Digest): (table: seq<CoverageEntry>)
    requires NoConflict(Elements(events))
    ensures IsTable(events, digest, table)
  {
    RequestsAre(events);
    var requests := RequestsOf(events);
    assert forall i :: 0 <= i < |requests| ==> requests[i] in requests;
    seq(|requests|, i requires 0 <= i < |requests| => RowOf(events, requests[i], digest))
  }

  ghost function LookupIn(table: seq<CoverageEntry>): (lookup: Lookup)
    ensures IsIdLookup(table, lookup)
  {
    var ids := set entry, id | entry in table && Covers(entry, id) && id in entry.evidenceEventIds :: id;
    var lookup := map id | id in ids && |IdsAt(table, id)| == 1 :: TheOnly(IdsAt(table, id));
    assert IsIdLookup(table, lookup) by {
      forall id ensures (id in lookup ==> IdsAt(table, id) == {lookup[id]}) && (id !in lookup ==> forall c :: IdsAt(table, id) != {c}) {
        assert forall c: string :: |{c}| == 1 && c in {c};
        if c :| IdsAt(table, id) == {c} {
          assert c in IdsAt(table, id);
          assert id in ids;
        }
      }
    }
    lookup
  }

  lemma IdLookupIsUnique(table: seq<CoverageEntry>, one: Lookup, other: Lookup)
    requires IsIdLookup(table, one) && IsIdLookup(table, other)
    ensures one == other
  {
    forall id ensures id in one <==> id in other
              ensures id in one ==> one[id] == other[id]
    {
      assert forall c: string :: c in {c};
      if id in one && id in other { assert one[id] in {other[id]}; }
    }
  }

  /** The coverage lookup of an event set; nothing if it has no causal order or that is not `valid`. */
  ghost function LookupOfSet(all: set<Event>, valid: seq<Event> -> bool, digest: Digest): Lookup
    requires NoConflict(all)
  {
    if ordered :| IsCausalOrder(all, ordered) && valid(ordered) then LookupIn(TableOf(ordered, digest)) else map[]
  }

  /** The coverage lookup of an event list: that of its set, but nothing at all once an ID repeats. */
  ghost function LookupOf(events: seq<Event>, valid: seq<Event> -> bool, digest: Digest): Lookup {
    if NoRepeats(events) then
      DistinctEvents(events);
      LookupOfSet(Elements(events), valid, digest)
    else map[]
  }

  /** `sufficientCoverageIds`, with `valid` standing for an event set without diagnostics; every exception gives an empty lookup. */
  method CoverageLookup(events: seq<Event>, valid: seq<Event> -> bool, digest: Digest) returns (lookup: Lookup)
    ensures lookup == LookupOf(events, valid, digest)
  {
    hide NoRepeats, IsCausalOrder, Rooted, MissesCause, IsTable, IsIdLookup, NoConflict, TableOf, LookupIn;
    var outcome := CausalOrder(events);
    if NoRepeats(events) { DistinctEvents(events); }
    if !outcome.Ordered? {
      if NoRepeats(events) { NotRootedNotOrdered(Elements(events)); }
      return map[];
    }
    var ordered := outcome.events;
    forall other | IsCausalOrder(Elements(events), other) ensures other == ordered {
      CausalOrderIsUnique(Elements(events), ordered, other);
    }
    if !valid(ordered) { return map[]; }
    assert Elements(ordered) == Elements(events) by { OrderHasAll(Elements(events), ordered); }
    var table := DeriveProjectionCoverage(ordered, digest);
    TableIsUnique(ordered, digest, table, TableOf(ordered, digest));
    lookup := SufficientCoverageIds(table);
    IdLookupIsUnique(table, lookup, LookupIn(table));
  }

  lemma TableIsUnique(events: seq<Event>, digest: Digest, one: seq<CoverageEntry>, other: seq<CoverageEntry>)
    requires NoConflict(Elements(events)) && IsTable(events, digest, one) && IsTable(events, digest, other)
    ensures one == other
  {
  }
}
