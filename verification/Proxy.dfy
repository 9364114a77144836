/**
 * The tool-call transaction of packages/adapters/src/mcp-proxy.ts: request, observation, effects,
 * derived events and completion, appended one by one to a store whose appends may fail in any pattern.
 */
module Proxy {
  import opened Options
  import opened Paths
  import opened ToolRecords
  import Effects

  // ---- The store ----

  /** What becomes of an append; a store may also persist the events and then throw. */
  datatype AppendOutcome = Stored | Invalid | Unstored | StoredButThrew

  datatype AtomicStatus = Appended | Unavailable | RaisedInvalid | Raised

  class EventStore {
    var log: seq<Event>
    var attempts: nat
    const outcome: nat -> AppendOutcome
    const hasAtomic: bool

    constructor (outcome: nat -> AppendOutcome, hasAtomic: bool)
      ensures log == [] && this.outcome == outcome && this.hasAtomic == hasAtomic
    {
      log, attempts := [], 0;
      this.outcome, this.hasAtomic := outcome, hasAtomic;
    }

    /** `appendValidated`; false stands for a throw. */
    method Append(e: Event) returns (ok: bool)
      modifies this
      ensures log == if outcome(old(attempts)).Stored? || outcome(old(attempts)).StoredButThrew? then old(log) + [e] else old(log)
      ensures ok <==> outcome(old(attempts)).Stored?
      ensures attempts == old(attempts) + 1
    {
      var o := outcome(attempts);
      attempts := attempts + 1;
      if o.Stored? || o.StoredButThrew? { log := log + [e]; }
      ok := o.Stored?;
    }

    /** `appendProofAtomic`: all of the events or none. */
    method AppendAtomic(es: seq<Event>) returns (status: AtomicStatus)
      modifies this
      ensures log == old(log) + es || (log == old(log) && status != Appended)
      ensures outcome(old(attempts)) != StoredButThrew && status != Appended ==> log == old(log)
      ensures status == Appended ==> log == old(log) + es
      ensures status.Unavailable? || status.RaisedInvalid? ==> log == old(log)
      ensures status == Appended <==> hasAtomic && outcome(old(attempts)).Stored?
      ensures attempts == old(attempts) + 1
    {
      var o := outcome(attempts);
      attempts := attempts + 1;
      if o.Invalid? { return RaisedInvalid; }
      if !hasAtomic { return Unavailable; }
      if o.Stored? || o.StoredButThrew? { log := log + es; }
      return if o.Stored? then Appended else Raised;
    }
  }

  // ---- Causal closure ----

  ghost predicate HasId(log: seq<Event>, id: Id) {
    exists i :: 0 <= i < |log| && log[i].id == id
  }

  /** The cause is absent, the caller's, or an event of this log. */
  ghost predicate Caused(log: seq<Event>, cause: Option<Id>, caller: Option<Id>) {
    cause == None || cause == caller || HasId(log, cause.value)
  }

  /** `after` extends `before`, and the cause of each new event precedes it or is the caller's. */
  ghost predicate Grown(before: seq<Event>, after: seq<Event>, caller: Option<Id>) {
    before <= after && forall i :: |before| <= i < |after| ==> Caused(after[..i], after[i].cause, caller)
  }

  lemma HasIdGrows(log: seq<Event>, after: seq<Event>, id: Id)
    requires log <= after && HasId(log, id)
    ensures HasId(after, id)
  {
    var i :| 0 <= i < |log| && log[i].id == id;
    assert after[i] == log[i];
  }

  lemma GrownIsTransitive(a: seq<Event>, b: seq<Event>, c: seq<Event>, caller: Option<Id>)
    requires Grown(a, b, caller) && Grown(b, c, caller)
    ensures Grown(a, c, caller)
  {
    hide Caused;
    forall i | |a| <= i < |c| ensures Caused(c[..i], c[i].cause, caller) {
      if i < |b| {
        assert b[..i] == c[..i] && b[i] == c[i];
        assert Caused(b[..i], b[i].cause, caller);
      }
    }
  }

  lemma GrownByOne(a: seq<Event>, b: seq<Event>, e: Event, caller: Option<Id>)
    requires Grown(a, b, caller) && Caused(b, e.cause, caller)
    ensures Grown(a, b + [e], caller)
  {
    forall i | |b| <= i < |b + [e]| ensures Caused((b + [e])[..i], (b + [e])[i].cause, caller) {
      assert (b + [e])[..i] == b;
    }
    GrownIsTransitive(a, b, b + [e], caller);
  }

  // ---- Attribution ----

  method SetOf(xs: seq<string>) returns (elements: set<string>)
    ensures forall x :: x in elements <==> x in xs
    ensures |elements| == |xs| <==> Distinct(xs)
    ensures |elements| <= |xs|
  {
    elements := {};
    for i := 0 to |xs|
      invariant forall x :: x in elements <==> x in xs[..i]
      invariant |elements| <= i
      invariant |elements| == i <==> Distinct(xs[..i])
    {
      assert xs[..i + 1] == xs[..i] + [xs[i]];
      if xs[i] in elements {
        var j :| 0 <= j < i && xs[j] == xs[i];
        assert !Distinct(xs[..i + 1]) by { assert xs[..i + 1][j] == xs[..i + 1][i]; }
      } else {
        assert forall j :: 0 <= j < i ==> xs[j] in xs[..i];
        assert Distinct(xs[..i]) ==> Distinct(xs[..i + 1]);
        assert Distinct(xs[..i + 1]) ==> Distinct(xs[..i]) by {
          assert forall j :: 0 <= j < i ==> xs[..i + 1][j] == xs[..i][j];
        }
      }
      elements := elements + {xs[i]};
    }
    assert xs[..|xs|] == xs;
  }

  lemma {:induction false} AscendingListsAreEqual(one: seq<string>, other: seq<string>)
    requires Ascending(one) && Ascending(other)
    requires forall x :: x in one <==> x in other
    requires (one == [] || one[0] in other) && (other == [] || other[0] in one)
    ensures one == other
  {
    if one != [] && other != [] {
      BeforeIsTotal(one[0], other[0]);
      assert one[0] == other[0];
      forall x ensures x in one[1..] <==> x in other[1..] {
        BeforeIsTotal(one[0], one[0]);
        assert x in one <==> x == one[0] || x in one[1..];
        assert x in other <==> x == other[0] || x in other[1..];
      }
      assert |one| > 1 ==> one[1..][0] in one[1..];
      assert |other| > 1 ==> other[1..][0] in other[1..];
      AscendingListsAreEqual(one[1..], other[1..]);
    }
  }

  /** `hasExactEffectResourceMatch`: sorts both lists and compares them place by place. */
  method HasExactEffectResourceMatch(reported: seq<string>, observed: seq<string>) returns (exact: bool)
    ensures exact <==> SameResources(reported, observed)
  {
    if reported == [] { return false; }
    var reportedSet := SetOf(reported);
    var observedSet := SetOf(observed);
    if |reported| != |observed| {
      assert (forall x :: x in reported <==> x in observed) ==> reportedSet == observedSet;
      return false;
    }
    if |reportedSet| != |reported| || |observedSet| != |observed| { return false; }
    var orderedReported := SortSet(reportedSet);
    var orderedObserved := SortSet(observedSet);
    exact := orderedReported == orderedObserved;
    assert orderedReported == [] || orderedReported[0] in orderedReported;
    assert orderedObserved == [] || orderedObserved[0] in orderedObserved;
    if SameResources(reported, observed) {
      AscendingListsAreEqual(orderedReported, orderedObserved);
    } else if exact {
      assert forall x :: x in reported <==> x in orderedReported;
      assert forall x :: x in observed <==> x in orderedObserved;
    }
  }

  ghost predicate Attributable(call: Call, execution: Execution, changes: seq<Intercepted>, gaps: seq<Gap>, outOfBand: seq<Id>) {
    && execution.outcome.Succeeded? && !call.opaqueCall && changes != [] && outOfBand == []
    && SameResources(execution.reported, ResourcesOf(changes)) && OnlyOrigin(gaps)
  }

  /** Attribution is all of the intercepted changes or none, and all exactly when nothing speaks against it. */
  method AttributedIds(call: Call, execution: Execution, changes: seq<Intercepted>, gaps: seq<Gap>, outOfBand: seq<Id>) returns (ids: seq<Id>)
    ensures ids != [] <==> Attributable(call, execution, changes, gaps, outOfBand)
    ensures ids != [] ==> ids == IdsOf(changes)
  {
    if !execution.outcome.Succeeded? || call.opaqueCall || changes == [] || outOfBand != [] { return []; }
    var exact := HasExactEffectResourceMatch(execution.reported, ResourcesOf(changes));
    if !exact { return []; }
    for i := 0 to |gaps|
      invariant forall j :: 0 <= j < i ==> gaps[j].SnapshotOrigin?
    {
      if !gaps[i].SnapshotOrigin? { return []; }
    }
    return IdsOf(changes);
  }

  // ---- What a completion may say ----

  /** The file change and every symbol its analysis found. */
  predicate AllSymbols(env: Environment, file: Id, effects: seq<Id>) {
    env.analyze(file).Facts? && |effects| == 1 + env.analyze(file).symbols && effects[0] == file
  }

  /** Source analysis of the file change did not refuse or throw. */
  predicate Analyzed(env: Environment, id: Id) {
    !env.analyze(id).Refused? && !env.analyze(id).AnalysisThrew?
  }

  /** The event is a file change caused by the request, or a symbol change caused by such a file change. */
  ghost predicate IsEffect(log: seq<Event>, request: Id, id: Id) {
    exists i :: 0 <= i < |log| && log[i].id == id
                && ((log[i].kind.FileChanged? && log[i].cause == Some(request))
                    || (log[i].kind.SymbolChanged?
                        && exists j :: 0 <= j < i && log[i].cause == Some(log[j].id) && log[j].kind.FileChanged? && log[j].cause == Some(request)))
  }

  lemma IsEffectGrows(log: seq<Event>, after: seq<Event>, request: Id, id: Id)
    requires log <= after && IsEffect(log, request, id)
    ensures IsEffect(after, request, id)
  {
    var i :| 0 <= i < |log| && log[i].id == id
             && ((log[i].kind.FileChanged? && log[i].cause == Some(request))
                 || (log[i].kind.SymbolChanged?
                     && exists j :: 0 <= j < i && log[i].cause == Some(log[j].id) && log[j].kind.FileChanged? && log[j].cause == Some(request)));
    assert after[i] == log[i];
    assert forall j :: 0 <= j < i ==> after[j] == log[j];
  }

  /** The tool reported exactly the resources at which the snapshots differ, `count` of them. */
  ghost predicate ReportsDifference(before: Effects.Files, after: Effects.Files, reported: seq<string>, resourceOf: string -> string, count: nat) {
    exists changes :: Effects.IsDiff(before, after, changes) && |changes| == count && SameResources(reported, ChangedResources(changes, resourceOf))
  }

  /**
   * What an attribution proves about the call: it succeeded on a transparent tool, both snapshots were
   * taken and nothing was degraded, nothing happened out of band, every difference between the
   * snapshots was persisted and analyzed, the tool reported exactly the differing resources, and a
   * dependent write, if one was declared, names one of them under a task.
   */
  ghost predicate AttributionSound(call: Call, context: Context, env: Environment, resourceOf: string -> string, attributed: seq<Id>) {
    && env.execution.outcome.Succeeded? && !call.opaqueCall
    && env.before.Captured? && env.after.Captured? && !env.after.degraded
    && env.before.capture.outOfBand == [] && env.after.capture.outOfBand == []
    && OnlyOrigin(env.before.capture.gaps) && OnlyOrigin(env.after.capture.gaps)
    && ReportsDifference(env.before.capture.files, env.after.capture.files, env.execution.reported, resourceOf, |attributed|)
    && (forall x :: x in attributed ==> Analyzed(env, x))
    && (call.dependentWrite.Some? ==> context.hasTask && call.dependentWrite.value.resource in env.execution.reported)
  }

  /** The declared read is on record under the request, and so is the declared dependency. */
  ghost predicate DeclarationsKept(log: seq<Event>, request: Id, call: Call) {
    && (call.observedRead.Some? ==> exists i :: 0 <= i < |log| && log[i].kind.FileRead? && log[i].cause == Some(request))
    && (call.dependentWrite.Some? ==> HasDependency(log, call.dependentWrite.value))
  }

  /** What the completion at the end of `log` may claim. */
  ghost predicate CompletionSound(log: seq<Event>, request: Id, call: Call, context: Context, env: Environment, resourceOf: string -> string, e: Event) {
    && e.cause == Some(request) && e.kind.Completed? && e.kind.request == request && e.kind.outcome == env.execution.outcome
    && (forall x :: x in e.kind.effects ==> IsEffect(log, request, x))
    && (forall x :: x in e.kind.attributed ==> x in e.kind.effects)
    && (e.kind.attributed != [] ==> AttributionSound(call, context, env, resourceOf, e.kind.attributed) && DeclarationsKept(log, request, call))
  }

  /** `after` extends `before` causally and without a completion. */
  ghost predicate Progress(before: seq<Event>, after: seq<Event>, caller: Option<Id>) {
    Grown(before, after, caller) && forall i :: |before| <= i < |after| ==> !after[i].kind.Completed? && !after[i].kind.DependentWrite?
  }

  lemma ProgressIsTransitive(a: seq<Event>, b: seq<Event>, c: seq<Event>, caller: Option<Id>)
    requires Progress(a, b, caller) && Progress(b, c, caller)
    ensures Progress(a, c, caller)
  {
    GrownIsTransitive(a, b, c, caller);
    assert forall i :: |a| <= i < |b| ==> b[i] == c[i];
  }

  lemma ProgressByOne(a: seq<Event>, e: Event, caller: Option<Id>)
    requires Caused(a, e.cause, caller) && !e.kind.Completed? && !e.kind.DependentWrite?
    ensures Progress(a, a + [e], caller) && Progress(a, a, caller) && HasId(a + [e], e.id)
  {
    GrownByOne(a, a, e, caller);
    assert (a + [e])[|a|] == e;
  }

  /** The store never persists an event and then throws. */
  ghost predicate Honest(store: EventStore) {
    forall n :: !store.outcome(n).StoredButThrew?
  }

  /** Every new file change caused by the request is listed. */
  ghost predicate Listed(before: seq<Event>, after: seq<Event>, request: Id, effects: seq<Id>) {
    forall i :: |before| <= i < |after| && after[i].kind.FileChanged? && after[i].cause == Some(request) ==> after[i].id in effects
  }

  /** The new file changes, if any, have no cause. */
  ghost predicate Uncaused(before: seq<Event>, after: seq<Event>) {
    forall i :: |before| <= i < |after| && after[i].kind.FileChanged? ==> after[i].cause == None
  }

  lemma ListedThrough(a: seq<Event>, b: seq<Event>, c: seq<Event>, request: Id, effects: seq<Id>, more: seq<Id>)
    requires a <= b <= c && Listed(a, b, request, effects) && (Listed(b, c, request, more) || Uncaused(b, c))
    ensures Listed(a, c, request, effects + more)
  {
    forall i | |a| <= i < |c| && c[i].kind.FileChanged? && c[i].cause == Some(request) ensures c[i].id in effects + more {
      if i < |b| { assert b[i] == c[i]; }
    }
  }

  lemma ListedFirst(before: seq<Event>, event: Event, after: seq<Event>, request: Id)
    requires before + [event] <= after && Uncaused(before + [event], after)
    ensures forall effects: seq<Id> :: event.id in effects ==> Listed(before, after, request, effects)
  {
    assert after[|before|] == event;
  }

  lemma SymbolIsEffect(log: seq<Event>, at: nat, from: nat, request: Id, file: Id, x: Id)
    requires at < from <= |log| && log[at].id == file && log[at].kind.FileChanged? && log[at].cause == Some(request)
    requires exists i :: from <= i < |log| && log[i] == Event(x, Some(file), SymbolChanged)
    ensures IsEffect(log, request, x)
  {
    var i :| from <= i < |log| && log[i] == Event(x, Some(file), SymbolChanged);
    assert log[i].cause == Some(log[at].id);
  }

  lemma ListedByStages(l0: seq<Event>, l1: seq<Event>, l2: seq<Event>, l3: seq<Event>, l4: seq<Event>, request: Id, effects: seq<Id>)
    requires l0 <= l1 <= l2 <= l3 <= l4
    requires Uncaused(l0, l1) && Listed(l1, l2, request, effects) && Uncaused(l2, l3) && Uncaused(l3, l4)
    ensures Listed(l0, l4, request, effects)
  {
    hide Listed, Uncaused;
    NothingListed(l0, request);
    ListedThrough(l0, l0, l1, request, [], []);
    ListedThrough(l0, l1, l2, request, [], effects);
    ListedThrough(l0, l2, l3, request, effects, []);
    ListedThrough(l0, l3, l4, request, effects, []);
    assert [] + effects == effects && effects + [] == effects;
  }

  lemma ProgressByStages(l0: seq<Event>, l1: seq<Event>, l2: seq<Event>, l3: seq<Event>, l4: seq<Event>,
                         n0: Id, n1: Id, n2: Id, n3: Id, n4: Id, request: Id, effects: seq<Id>, honest: bool, caller: Option<Id>)
    requires Progress(l0, l1, caller) && Progress(l1, l2, caller) && Progress(l2, l3, caller) && Progress(l3, l4, caller)
    requires Fresh(l0, l1, n0, n1) && Fresh(l1, l2, n1, n2) && Fresh(l2, l3, n2, n3) && Fresh(l3, l4, n3, n4)
    requires Uncaused(l0, l1) && Uncaused(l2, l3) && Uncaused(l3, l4) && (honest ==> Listed(l1, l2, request, effects))
    ensures Progress(l0, l4, caller) && Fresh(l0, l4, n0, n4) && l0 <= l1 <= l2 <= l3 <= l4
    ensures honest ==> Listed(l0, l4, request, effects)
  {
    ProgressExtends(l0, l1, caller);
    ProgressExtends(l1, l2, caller);
    ProgressExtends(l2, l3, caller);
    ProgressExtends(l3, l4, caller);
    hide Progress, Fresh, Uncaused, Listed;
    if honest { ListedByStages(l0, l1, l2, l3, l4, request, effects); }
    ProgressIsTransitive(l0, l1, l2, caller);
    ProgressIsTransitive(l0, l2, l3, caller);
    ProgressIsTransitive(l0, l3, l4, caller);
    FreshThrough(l0, l1, l2, n0, n1, n2);
    FreshThrough(l0, l2, l3, n0, n2, n3);
    FreshThrough(l0, l3, l4, n0, n3, n4);
  }

  lemma OnlyOriginOfAll(a: seq<Gap>, b: seq<Gap>, c: seq<Gap>, d: seq<Gap>, e: seq<Gap>, f: seq<Gap>)
    ensures OnlyOrigin(a + b + c + d + e + f)
            <==> OnlyOrigin(a) && OnlyOrigin(b) && OnlyOrigin(c) && OnlyOrigin(d) && OnlyOrigin(e) && OnlyOrigin(f)
    ensures a == c == d == e == f == [] ==> a + b + c + d + e + f == b
  {
    hide OnlyOrigin;
    OnlyOriginOfBoth(a + b + c + d + e, f);
    OnlyOriginOfBoth(a + b + c + d, e);
    OnlyOriginOfBoth(a + b + c, d);
    OnlyOriginOfBoth(a + b, c);
    OnlyOriginOfBoth(a, b);
  }

  lemma UncausedThrough(a: seq<Event>, b: seq<Event>, c: seq<Event>)
    requires a <= b <= c && Uncaused(a, b) && Uncaused(b, c)
    ensures Uncaused(a, c)
  {
    assert forall i :: |a| <= i < |b| ==> c[i] == b[i];
  }

  lemma OneChange(log: seq<Event>, e: Event, since: Id)
    requires e.kind.FileChanged?
    ensures OnlyChanges(log, log + [e], since) && OnlyChanges(log, log, since)
  {
  }

  /** A change whose append threw. */
  lemma LostSettles(env: Environment, before: seq<Event>, after: seq<Event>, request: Id, gaps: seq<Gap>, honest: bool)
    requires before <= after && (honest ==> after == before) && gaps != [] && !OnlyOrigin(gaps)
    ensures Settles(env, before, after, request, 1, [], [], gaps, honest)
  {
  }

  /** A change that was appended, followed by what its analysis left. */
  lemma ChangeSettles(env: Environment, before: seq<Event>, event: Event, after: seq<Event>, request: Id, sources: seq<Id>, gaps: seq<Gap>, honest: bool)
    requires before + [event] <= after && UnderRequest(event, request) && Uncaused(before + [event], after)
    requires OnlyOrigin(gaps) <==> gaps == []
    requires gaps == [] ==> Recorded(env, after, |before|)
    requires gaps == [] ==> sources == if env.analyze(event.id).Facts? then [event.id] else []
    requires honest && gaps != [] ==> Unrecorded(env, after, |before|)
    ensures Settles(env, before, after, request, 1, [Intercepted(event.id, event.kind.resource)], sources, gaps, honest)
  {
    hide Recorded, Unrecorded;
    assert after[|before|] == event;
    OneIntercept(after, |before|, request);
    assert FactSources(env, [Intercepted(event.id, event.kind.resource)]) == if env.analyze(event.id).Facts? then [event.id] else [] by {
      assert [Intercepted(event.id, event.kind.resource)][..0] == [];
    }
  }

  lemma NothingListed(log: seq<Event>, request: Id)
    ensures Listed(log, log, request, [])
  {
  }

  lemma NoProgress(log: seq<Event>, caller: Option<Id>)
    ensures Progress(log, log, caller)
  {
  }

  datatype SourceResult = NoAnalysis | Diagnostic(reason: string) | Derived(symbolIds: seq<Id>) | SourceThrew

  /**
   * The first `n` of `total` symbol events and their evidence, in append order: each symbol is caused by
   * the file event, its evidence by the symbol. All symbol ids are drawn before the evidence ids.
   */
  function SymbolEvents(file: Id, first: Id, total: nat, n: nat): seq<Event> {
    if n == 0 then []
    else SymbolEvents(file, first, total, n - 1)
         + [Event(first + n - 1, Some(file), SymbolChanged), Event(first + total + n - 1, Some(first + n - 1), EvidenceDerived)]
  }

  lemma {:induction false} SymbolEventsAre(file: Id, first: Id, total: nat, n: nat)
    ensures |SymbolEvents(file, first, total, n)| == 2 * n
    ensures forall k :: 0 <= k < n ==>
              && SymbolEvents(file, first, total, n)[2 * k] == Event(first + k, Some(file), SymbolChanged)
              && SymbolEvents(file, first, total, n)[2 * k + 1] == Event(first + total + k, Some(first + k), EvidenceDerived)
  {
    if n > 0 { SymbolEventsAre(file, first, total, n - 1); }
  }

  lemma {:induction false} SymbolEventsAreCaused(log: seq<Event>, file: Id, first: Id, total: nat, n: nat, caller: Option<Id>)
    requires HasId(log, file)
    ensures Progress(log, log + SymbolEvents(file, first, total, n), caller)
    ensures Uncaused(log, log + SymbolEvents(file, first, total, n))
  {
    if n == 0 {
      assert log + [] == log;
    } else {
      SymbolEventsAreCaused(log, file, first, total, n - 1, caller);
      var before := log + SymbolEvents(file, first, total, n - 1);
      var symbol := Event(first + n - 1, Some(file), SymbolChanged);
      var evidence := Event(first + total + n - 1, Some(first + n - 1), EvidenceDerived);
      HasIdGrows(log, before, file);
      ProgressByOne(before, symbol, caller);
      ProgressByOne(before + [symbol], evidence, caller);
      ProgressIsTransitive(before, before + [symbol], before + [symbol] + [evidence], caller);
      ProgressIsTransitive(log, before, before + [symbol] + [evidence], caller);
      assert log + SymbolEvents(file, first, total, n) == before + [symbol] + [evidence];
    }
  }

  // ---- Fresh ids ----

  /** The new events carry different ids, all drawn between `from` and `to`. */
  ghost predicate Fresh(before: seq<Event>, after: seq<Event>, from: Id, to: Id) {
    && from <= to && before <= after
    && (forall i :: |before| <= i < |after| ==> from <= after[i].id < to)
    && (forall i, j :: |before| <= i < j < |after| ==> after[i].id != after[j].id)
  }

  lemma FreshThrough(a: seq<Event>, b: seq<Event>, c: seq<Event>, from: Id, middle: Id, to: Id)
    requires Fresh(a, b, from, middle) && Fresh(b, c, middle, to)
    ensures Fresh(a, c, from, to)
  {
    assert forall i :: |a| <= i < |b| ==> c[i] == b[i];
  }

  lemma FreshNone(log: seq<Event>, from: Id, to: Id)
    requires from <= to
    ensures Fresh(log, log, from, to)
  {
  }

  lemma FreshOne(log: seq<Event>, e: Event, from: Id, to: Id)
    requires from <= e.id < to
    ensures Fresh(log, log + [e], from, to)
  {
  }

  lemma SymbolEventsAreChanges(log: seq<Event>, file: Id, first: Id, total: nat)
    ensures OnlyChanges(log, log + SymbolEvents(file, first, total, total), file)
  {
    SymbolEventsAre(file, first, total, total);
    var events := SymbolEvents(file, first, total, total);
    hide SymbolEvents;
    forall i | |log| <= i < |log + events|
      ensures (log + events)[i].kind.EvidenceDerived? || ((log + events)[i].kind.SymbolChanged? && (log + events)[i].cause == Some(file))
    {
      var j := i - |log|;
      assert j == 2 * (j / 2) + j % 2 && 0 <= j / 2 < total;
    }
  }

  lemma SymbolsAreRecorded(env: Environment, log: seq<Event>, file: Id, first: Id)
    requires log != [] && log[|log| - 1].id == file && env.analyze(file).Facts?
    ensures Recorded(env, log + SymbolEvents(file, first, env.analyze(file).symbols, env.analyze(file).symbols), |log| - 1)
  {
    var n := env.analyze(file).symbols;
    SymbolEventsAre(file, first, n, n);
    var events := SymbolEvents(file, first, n, n);
    hide SymbolEvents;
    forall k | 0 <= k < n
      ensures (log + events)[|log| + 2 * k] == events[2 * k] && (log + events)[|log| + 1 + 2 * k] == events[2 * k + 1]
    {
    }
  }

  lemma SymbolEventsAreFresh(log: seq<Event>, file: Id, first: Id, total: nat)
    ensures Fresh(log, log + SymbolEvents(file, first, total, total), first, first + 2 * total)
  {
    SymbolEventsAre(file, first, total, total);
    var events := SymbolEvents(file, first, total, total);
    hide SymbolEvents;
    forall i | 0 <= i < |events|
      ensures events[i].id == first + i / 2 + if i % 2 == 0 then 0 else total
    {
      assert i == 2 * (i / 2) + i % 2 && 0 <= i / 2 < total;
    }
    assert forall i :: 0 <= i < |events| ==> (log + events)[|log| + i] == events[i];
    forall i | |log| <= i < |log + events| ensures first <= (log + events)[i].id < first + 2 * total {
      assert (log + events)[i] == events[i - |log|];
    }
    forall i, j | |log| <= i < j < |log + events| ensures (log + events)[i].id != (log + events)[j].id {
      assert (log + events)[i] == events[i - |log|] && (log + events)[j] == events[j - |log|];
    }
  }

  ghost predicate IdsBelow(log: seq<Event>, bound: Id) {
    forall i :: 0 <= i < |log| ==> log[i].id < bound
  }

  ghost predicate DistinctIds(log: seq<Event>) {
    forall i, j :: 0 <= i < j < |log| ==> log[i].id != log[j].id
  }

  /** A store whose ids all lie below the counter still has distinct ids below the counter. */
  lemma FreshKeepsDistinct(before: seq<Event>, after: seq<Event>, from: Id, to: Id)
    requires Fresh(before, after, from, to) && IdsBelow(before, from) && DistinctIds(before)
    ensures IdsBelow(after, to) && DistinctIds(after)
  {
    assert forall i :: 0 <= i < |before| ==> after[i] == before[i];
  }

  lemma DependencyStep(log: seq<Event>, derived: seq<Event>, resolved: seq<Resolution>, k: nat, id: Id, from: Id, caller: Option<Id>)
    requires k < |resolved| && DependencyPairs(derived, resolved, k) && HasId(log, resolved[k].source)
    requires Progress(log, log + derived, caller) && Fresh(log, log + derived, from, id)
    ensures var event := Event(id, Some(resolved[k].source), DependencyChanged(resolved[k].dependencyId, resolved[k].dependent));
            var more := derived + [event, Event(id + 1, Some(id), EvidenceDerived)];
            DependencyPairs(more, resolved, k + 1) && Progress(log, log + more, caller) && Fresh(log, log + more, from, id + 2)
  {
    hide Grown, HasId, Progress, Fresh;
    var event := Event(id, Some(resolved[k].source), DependencyChanged(resolved[k].dependencyId, resolved[k].dependent));
    var evidence := Event(id + 1, Some(id), EvidenceDerived);
    var one, two, three := log + derived, log + derived + [event], log + derived + [event] + [evidence];
    assert log <= one;
    HasIdGrows(log, one, resolved[k].source);
    ProgressByOne(one, event, caller);
    ProgressByOne(two, evidence, caller);
    ProgressIsTransitive(log, one, two, caller);
    ProgressIsTransitive(log, two, three, caller);
    FreshOne(one, event, id, id + 1);
    FreshOne(two, evidence, id + 1, id + 2);
    FreshThrough(log, one, two, from, id, id + 1);
    FreshThrough(log, two, three, from, id + 1, id + 2);
    assert three == log + (derived + [event, evidence]);
  }

  lemma PairsAreUncaused(log: seq<Event>, derived: seq<Event>, resolved: seq<Resolution>)
    requires DependencyPairs(derived, resolved, |resolved|)
    ensures Uncaused(log, log + derived)
  {
    forall i | 0 <= i < |derived| ensures !derived[i].kind.FileChanged? {
      assert i == 2 * (i / 2) + i % 2 && 0 <= i / 2 < |resolved|;
    }
  }

  lemma NothingAnalyzed(log: seq<Event>, file: Id, from: Id, caller: Option<Id>)
    ensures Progress(log, log, caller) && Uncaused(log, log) && Fresh(log, log, from, from) && OnlyChanges(log, log, file)
  {
  }

  lemma RecordedAreAnalyzed(env: Environment, before: seq<Event>, after: seq<Event>, request: Id, n: nat,
                            intercepted: seq<Intercepted>, sources: seq<Id>, gaps: seq<Gap>, honest: bool)
    requires Settles(env, before, after, request, n, intercepted, sources, gaps, honest)
    ensures gaps == [] ==> forall i :: 0 <= i < |intercepted| ==> Analyzed(env, intercepted[i].id)
  {
    if gaps == [] {
      forall i | 0 <= i < |intercepted| ensures Analyzed(env, intercepted[i].id) {
        assert intercepted[i] in intercepted;
        InterceptsAre(after, |before|, request, intercepted[i]);
      }
    }
  }

  lemma NothingPersisted(env: Environment, log: seq<Event>, request: Id, from: Id, caller: Option<Id>, honest: bool)
    ensures Progress(log, log, caller) && Fresh(log, log, from, from) && OnlyChanges(log, log, from)
    ensures Listed(log, log, request, []) && Settles(env, log, log, request, 0, [], [], [], honest)
  {
    SettlesNone(env, log, request, honest);
  }

  lemma ChangesGrow(start: seq<Event>, after: seq<Event>, request: Id, effects: seq<Id>, intercepted: seq<Intercepted>, sources: seq<Id>)
    requires start <= after
    requires forall x :: x in effects ==> IsEffect(start, request, x)
    requires forall i :: 0 <= i < |intercepted| ==> HasId(start, intercepted[i].id)
    requires forall x :: x in sources ==> HasId(start, x)
    ensures forall x :: x in effects ==> IsEffect(after, request, x)
    ensures forall i :: 0 <= i < |intercepted| ==> HasId(after, intercepted[i].id)
    ensures forall x :: x in sources ==> HasId(after, x)
  {
    hide IsEffect, HasId;
    forall x | x in effects ensures IsEffect(after, request, x) { IsEffectGrows(start, after, request, x); }
    forall i | 0 <= i < |intercepted| ensures HasId(after, intercepted[i].id) { HasIdGrows(start, after, intercepted[i].id); }
    forall x | x in sources ensures HasId(after, x) { HasIdGrows(start, after, x); }
  }

  lemma NextSettles(env: Environment, before: seq<Event>, start: seq<Event>, after: seq<Event>, request: Id, k: nat,
                    intercepted: seq<Intercepted>, sources: seq<Id>, gaps: seq<Gap>,
                    one: Option<Intercepted>, analyzed: bool, found: seq<Gap>, honest: bool, from: Id, at: Id)
    requires Settles(env, before, start, request, k, intercepted, sources, gaps, honest)
    requires analyzed ==> one.Some?
    requires Settles(env, start, after, request, 1, if one.Some? then [one.value] else [], if analyzed then [one.value.id] else [], found, honest)
    requires Fresh(before, start, from, at) && OnlyChanges(before, start, from) && OnlyChanges(start, after, at)
    ensures OnlyChanges(before, after, from)
    ensures Settles(env, before, after, request, k + 1, if one.Some? then intercepted + [one.value] else intercepted,
                    if analyzed then sources + [one.value.id] else sources, gaps + found, honest)
  {
    SettlesThrough(env, before, start, after, request, k, 1, intercepted, if one.Some? then [one.value] else [],
                   sources, if analyzed then [one.value.id] else [], gaps, found, honest, at);
    OnlyChangesThrough(before, start, after, from, at);
    assert intercepted + [] == intercepted && sources + [] == sources;
  }

  lemma StaysDistinct(before: seq<Event>, after: seq<Event>, from: Id, to: Id)
    requires Fresh(before, after, from, to)
    ensures IdsBelow(before, from) && DistinctIds(before) ==> IdsBelow(after, to) && DistinctIds(after)
  {
    if IdsBelow(before, from) && DistinctIds(before) { FreshKeepsDistinct(before, after, from, to); }
  }

  // ---- Dependencies ----

  /** Every resolved dependency as an event of its consumer's file change, followed by its evidence. */
  ghost predicate DependencyPairs(added: seq<Event>, resolved: seq<Resolution>, n: nat)
    requires n <= |resolved|
  {
    && |added| == 2 * n
    && (forall k :: 0 <= k < n ==>
          && added[2 * k].kind == DependencyChanged(resolved[k].dependencyId, resolved[k].dependent)
          && added[2 * k].cause == Some(resolved[k].source)
          && added[2 * k + 1].kind == EvidenceDerived && added[2 * k + 1].cause == Some(added[2 * k].id))
  }

  datatype Result =
    | RequestThrew
    | CompletionThrew(request: Id)
    | DependentWriteThrew(request: Id, completion: Id)
    | Returned(request: Id, completion: Id, gaps: seq<Gap>, sufficient: Option<bool>)

  class McpProxy {
    const store: EventStore
    const resourceOf: string -> string
    const hasObserver: bool
    var nextId: Id

    constructor (store: EventStore, resourceOf: string -> string, hasObserver: bool)
      ensures this.store == store && this.resourceOf == resourceOf && this.hasObserver == hasObserver
    {
      this.store, this.resourceOf, this.hasObserver := store, resourceOf, hasObserver;
      nextId := 0;
    }

    method CreateEventId() returns (id: Id)
      modifies this
      ensures id == old(nextId) && nextId == id + 1
    {
      id := nextId;
      nextId := nextId + 1;
    }

    /** `deriveChangedSourceEvents` for a persisted file change; the analyzer's verdict is an input. */
    method DeriveChangedSourceEvents(file: Id, env: Environment, ghost caller: Option<Id>) returns (result: SourceResult)
      requires HasId(store.log, file)
      modifies this, store
      ensures Progress(old(store.log), store.log, caller) && Uncaused(old(store.log), store.log)
      ensures result.Derived? ==> forall x :: x in result.symbolIds ==>
                exists i :: |old(store.log)| <= i < |store.log| && store.log[i] == Event(x, Some(file), SymbolChanged)
      ensures env.analyze(file).NotConfigured? ==> result.NoAnalysis?
      ensures env.analyze(file).Refused? ==> result.Diagnostic?
      ensures env.analyze(file).AnalysisThrew? ==> result.SourceThrew?
      ensures env.analyze(file).Facts? && result.Derived? ==> |result.symbolIds| == env.analyze(file).symbols
      ensures env.analyze(file).Facts? ==> result.Derived? || result.Diagnostic?
      ensures result.Derived? ==>
                env.analyze(file).Facts? && store.log == old(store.log) + SymbolEvents(file, old(nextId), env.analyze(file).symbols, env.analyze(file).symbols)
      ensures env.analyze(file).Facts? && env.analyze(file).symbols == 0 ==> result.Derived?
      ensures store.log == old(store.log) || env.analyze(file).Facts?
      ensures Honest(store) && !result.Derived? ==> store.log == old(store.log)
      ensures OnlyChanges(old(store.log), store.log, file)
      ensures Fresh(old(store.log), store.log, old(nextId), nextId)
    {
      hide Progress, Fresh, Uncaused, OnlyChanges, HasId;
      ghost var before := store.log;
      NothingAnalyzed(before, file, nextId, caller);
      match env.analyze(file) {
        case NotConfigured => result := NoAnalysis;
        case Refused(reason) => result := Diagnostic(reason);
        case AnalysisThrew => result := SourceThrew;
        case Facts(symbols) =>
          var first := nextId;
          nextId := nextId + 2 * symbols;
          SymbolEventsAreCaused(before, file, first, symbols, symbols, caller);
          SymbolEventsAre(file, first, symbols, symbols);
          SymbolEventsAreFresh(before, file, first, symbols);
          SymbolEventsAreChanges(before, file, first, symbols);
          var status := Appended;
          if symbols > 0 { status := store.AppendAtomic(SymbolEvents(file, first, symbols, symbols)); }
          FreshNone(before, first, nextId);
          assert before + SymbolEvents(file, first, 0, 0) == before;
          if status != Appended { return Diagnostic("derived symbol event persistence failed"); }
          result := Derived(seq(symbols, k requires 0 <= k < symbols => first + k));
          forall x | x in result.symbolIds
            ensures exists i :: |before| <= i < |store.log| && store.log[i] == Event(x, Some(file), SymbolChanged)
          {
            var k :| 0 <= k < symbols && result.symbolIds[k] == x;
            assert store.log[|before| + 2 * k] == SymbolEvents(file, first, symbols, symbols)[2 * k];
          }
      }
    }

    /** The read the caller declared, appended under the request. */
    method RecordRead(call: Call, request: Id, ghost caller: Option<Id>) returns (gaps: seq<Gap>)
      requires HasId(store.log, request)
      modifies this, store
      ensures Progress(old(store.log), store.log, caller) && Uncaused(old(store.log), store.log)
      ensures OnlyOrigin(gaps) <==> gaps == []
      ensures gaps == [] ==> ReadKept(store.log, |old(store.log)|, request, call)
      ensures Honest(store) && gaps != [] ==> call.observedRead.Some? && store.log == old(store.log)
      ensures forall i :: |old(store.log)| <= i < |store.log| ==> store.log[i].kind.FileRead?
      ensures Fresh(old(store.log), store.log, old(nextId), nextId)
    {
      NoProgress(store.log, caller);
      gaps := [];
      if call.observedRead.Some? {
        var id := CreateEventId();
        ProgressByOne(store.log, Event(id, Some(request), FileRead), caller);
        var ok := store.Append(Event(id, Some(request), FileRead));
        if ok {
          assert store.log[|store.log| - 1] == Event(id, Some(request), FileRead);
        } else {
          gaps := [Gap(call.observedRead.value, "explicit read metadata could not be persisted")];
          assert !gaps[0].SnapshotOrigin?;
        }
      }
    }

    /** One intercepted change: its file event under the request, then what source analysis derives from it. */
    method PersistChange(change: Effects.Change, request: Id, env: Environment, ghost caller: Option<Id>)
      returns (effects: seq<Id>, intercepted: Option<Intercepted>, analyzed: bool, gaps: seq<Gap>)
      requires HasId(store.log, request)
      modifies this, store
      ensures Progress(old(store.log), store.log, caller)
      ensures forall x :: x in effects ==> IsEffect(store.log, request, x)
      ensures intercepted.Some? ==> intercepted.value.id in effects && HasId(store.log, intercepted.value.id)
      ensures intercepted.Some? ==> intercepted.value.resource == resourceOf(change.path)
      ensures analyzed ==> intercepted.Some?
      ensures intercepted.None? ==> effects == []
      ensures intercepted.Some? ==> effects == [intercepted.value.id] || AllSymbols(env, intercepted.value.id, effects)
      ensures OnlyOrigin(gaps) <==> gaps == []
      ensures gaps == [] <==>
                intercepted.Some? && if env.analyze(intercepted.value.id).NotConfigured? then effects == [intercepted.value.id]
                                     else analyzed && AllSymbols(env, intercepted.value.id, effects)
      ensures gaps == [] ==> intercepted.Some? && Analyzed(env, intercepted.value.id)
      ensures Fresh(old(store.log), store.log, old(nextId), nextId)
      ensures Honest(store) ==> Listed(old(store.log), store.log, request, effects)
      ensures OnlyChanges(old(store.log), store.log, old(nextId))
      ensures Settles(env, old(store.log), store.log, request, 1, if intercepted.Some? then [intercepted.value] else [],
                      if analyzed then [intercepted.value.id] else [], gaps, Honest(store))
    {
      hide Progress, Fresh, Uncaused, Listed, Settles, OnlyChanges, Recorded, Unrecorded;
      ghost var before := store.log;
      effects, intercepted, analyzed, gaps := [], None, false, [];
      var id := CreateEventId();
      var event := Event(id, Some(request), FileChanged(resourceOf(change.path)));
      ProgressByOne(before, event, caller);
      FreshOne(before, event, id, id + 1);
      var ok := store.Append(event);
      if !ok {
        FreshNone(before, id, id + 1);
        NothingListed(before, request);
        gaps := [Gap(change.path, "effect event persistence failed")];
        assert !gaps[0].SnapshotOrigin?;
        OneChange(before, event, id);
        LostSettles(env, before, store.log, request, gaps, Honest(store));
        return;
      }
      ghost var middle := store.log;
      assert middle[|before|] == event;
      assert IsEffect(middle, request, id);
      var symbolIds, derived, found := AnalyzeChange(id, change.path, "effect event persistence failed", env, caller);
      effects, intercepted, analyzed, gaps := [id] + symbolIds, Some(Intercepted(id, resourceOf(change.path))), derived, found;
      ProgressExtends(middle, store.log, caller);
      ProgressIsTransitive(before, middle, store.log, caller);
      FreshThrough(before, middle, store.log, id, id + 1, nextId);
      HasIdGrows(middle, store.log, id);
      ListedFirst(before, event, store.log, request);
      OneChange(before, event, id);
      OnlyChangesThrough(before, middle, store.log, id, id);
      ChangeSettles(env, before, event, store.log, request, if derived then [id] else [], found, Honest(store));
      forall x | x in effects ensures IsEffect(store.log, request, x) {
        if x == id { IsEffectGrows(middle, store.log, request, id); } else { SymbolIsEffect(store.log, |before|, |middle|, request, id, x); }
      }
    }

    /** What source analysis of a persisted change adds: all of its symbols, or none and a gap. */
    method AnalyzeChange(file: Id, path: string, failure: string, env: Environment, ghost caller: Option<Id>) returns (symbolIds: seq<Id>, analyzed: bool, gaps: seq<Gap>)
      requires store.log != [] && store.log[|store.log| - 1].id == file
      modifies this, store
      ensures Progress(old(store.log), store.log, caller) && Uncaused(old(store.log), store.log)
      ensures Fresh(old(store.log), store.log, old(nextId), nextId) && OnlyChanges(old(store.log), store.log, file)
      ensures OnlyOrigin(gaps) <==> gaps == []
      ensures gaps == [] ==> Recorded(env, store.log, |old(store.log)| - 1) && (analyzed <==> env.analyze(file).Facts?)
      ensures Honest(store) && gaps != [] ==> Unrecorded(env, store.log, |old(store.log)| - 1)
      ensures forall x :: x in symbolIds ==> exists i :: |old(store.log)| <= i < |store.log| && store.log[i] == Event(x, Some(file), SymbolChanged)
      ensures symbolIds == [] || (env.analyze(file).Facts? && |symbolIds| == env.analyze(file).symbols)
      ensures OnlyOrigin(gaps) <==>
                if env.analyze(file).NotConfigured? then symbolIds == []
                else analyzed && env.analyze(file).Facts? && |symbolIds| == env.analyze(file).symbols
    {
      hide Progress, Uncaused, Fresh, Honest, OnlyChanges, SymbolEvents;
      ghost var before, first := store.log, nextId;
      assert HasId(before, file);
      var analysis := DeriveChangedSourceEvents(file, env, caller);
      symbolIds, analyzed, gaps := [], false, [];
      match analysis {
        case NoAnalysis =>
        case Diagnostic(reason) =>
          gaps := [Gap("source:" + path, reason)];
          assert !gaps[0].SnapshotOrigin?;
        case SourceThrew =>
          gaps := [Gap(path, failure)];
          assert !gaps[0].SnapshotOrigin?;
        case Derived(ids) =>
          symbolIds, analyzed := ids, true;
          SymbolsAreRecorded(env, before, file, first);
      }
    }

    /** The loop over the differences between the two snapshots. */
    method PersistChanges(changes: seq<Effects.Change>, request: Id, env: Environment, ghost caller: Option<Id>)
      returns (effects: seq<Id>, intercepted: seq<Intercepted>, sources: seq<Id>, gaps: seq<Gap>)
      requires HasId(store.log, request)
      modifies this, store
      ensures Progress(old(store.log), store.log, caller)
      ensures forall x :: x in effects ==> IsEffect(store.log, request, x)
      ensures forall i :: 0 <= i < |intercepted| ==> intercepted[i].id in effects && HasId(store.log, intercepted[i].id)
      ensures forall x :: x in sources ==> HasId(store.log, x)
      ensures gaps == [] ==> ResourcesOf(intercepted) == ChangedResources(changes, resourceOf)
      ensures gaps == [] ==> forall i :: 0 <= i < |intercepted| ==> Analyzed(env, intercepted[i].id)
      ensures Honest(store) ==> Listed(old(store.log), store.log, request, effects)
      ensures Fresh(old(store.log), store.log, old(nextId), nextId)
      ensures OnlyChanges(old(store.log), store.log, old(nextId))
      ensures Settles(env, old(store.log), store.log, request, |changes|, intercepted, sources, gaps, Honest(store))
      ensures OnlyOrigin(gaps) <==> gaps == []
    {
      hide Progress, IsEffect, HasId, Listed, Honest, Analyzed, Fresh, AllSymbols, Settles, OnlyChanges, OnlyOrigin;
      ghost var before, from := store.log, nextId;
      effects, intercepted, sources, gaps := [], [], [], [];
      NothingPersisted(env, before, request, from, caller, Honest(store));
      for k := 0 to |changes|
        invariant Progress(before, store.log, caller) && HasId(store.log, request)
        invariant forall x :: x in effects ==> IsEffect(store.log, request, x)
        invariant forall i :: 0 <= i < |intercepted| ==> intercepted[i].id in effects && HasId(store.log, intercepted[i].id)
        invariant forall x :: x in sources ==> HasId(store.log, x)
        invariant Honest(store) ==> Listed(before, store.log, request, effects)
        invariant Fresh(before, store.log, from, nextId) && OnlyChanges(before, store.log, from)
        invariant Settles(env, before, store.log, request, k, intercepted, sources, gaps, Honest(store))
        invariant gaps == [] ==> |intercepted| == k && forall i :: 0 <= i < k ==> intercepted[i].resource == resourceOf(changes[i].path)
      {
        ghost var start, at := store.log, nextId;
        ghost var was, wasSources, wasGaps := intercepted, sources, gaps;
        var more, one, analyzed, found := PersistChange(changes[k], request, env, caller);
        ProgressIsTransitive(before, start, store.log, caller);
        FreshThrough(before, start, store.log, from, at, nextId);
        assert start <= store.log by { ProgressExtends(start, store.log, caller); }
        HasIdGrows(start, store.log, request);
        assert before <= start by { ProgressExtends(before, start, caller); }
        if Honest(store) { ListedThrough(before, start, store.log, request, effects, more); }
        ChangesGrow(start, store.log, request, effects, intercepted, sources);
        effects, gaps := effects + more, gaps + found;
        if one.Some? {
          intercepted := intercepted + [one.value];
          if analyzed { sources := sources + [one.value.id]; }
        }
        NextSettles(env, before, start, store.log, request, k, was, wasSources, wasGaps, one, analyzed, found, Honest(store), from, at);
      }
      SettlesByGaps(env, before, store.log, request, |changes|, intercepted, sources, gaps, Honest(store));
      RecordedAreAnalyzed(env, before, store.log, request, |changes|, intercepted, sources, gaps, Honest(store));
    }

    /** The loop over the changes seen between windows: unattributed, caused by nothing, and always a gap. */
    method PersistOutOfBand(changes: seq<Effects.Change>, env: Environment, ghost caller: Option<Id>)
      returns (ids: seq<Id>, sources: seq<Id>, gaps: seq<Gap>)
      modifies this, store
      ensures Progress(old(store.log), store.log, caller)
      ensures forall x :: x in sources ==> HasId(store.log, x)
      ensures OnlyOrigin(gaps) <==> changes == []
      ensures changes == [] ==> ids == [] && sources == [] && gaps == [] && store.log == old(store.log)
      ensures |ids| <= |changes|
      ensures Uncaused(old(store.log), store.log)
      ensures Fresh(old(store.log), store.log, old(nextId), nextId)
      ensures OutsideReported(changes, gaps)
      ensures forall i :: 0 <= i < |changes| ==> OutsideKept(old(store.log), store.log, changes[i], resourceOf, gaps)
    {
      ghost var before, from := store.log, nextId;
      ids, sources, gaps := [], [], [];
      NoProgress(before, caller);
      for k := 0 to |changes|
        invariant Progress(before, store.log, caller) && Uncaused(before, store.log) && |ids| <= k
        invariant Fresh(before, store.log, from, nextId)
        invariant forall x :: x in sources ==> HasId(store.log, x)
        invariant k > 0 ==> !OnlyOrigin(gaps)
        invariant k == 0 ==> ids == [] && sources == [] && gaps == [] && store.log == before
        invariant forall i :: 0 <= i < k ==> OutsideGap(changes[i]) in gaps && OutsideKept(before, store.log, changes[i], resourceOf, gaps)
      {
        hide Progress, HasId, Fresh, Uncaused, OnlyOrigin, OutsideKept, OutsideGap;
        ghost var start, at, was := store.log, nextId, gaps;
        var id, analyzed, found := PersistOneOutOfBand(changes[k], env, caller);
        ProgressIsTransitive(before, start, store.log, caller);
        UncausedThrough(before, start, store.log) by {
          ProgressExtends(before, start, caller);
          ProgressExtends(start, store.log, caller);
        }
        FreshThrough(before, start, store.log, from, at, nextId);
        OnlyOriginOfBoth(was, found);
        gaps := gaps + found;
        ProgressExtends(before, start, caller);
        ProgressExtends(start, store.log, caller);
        forall i | 0 <= i < k ensures OutsideKept(before, store.log, changes[i], resourceOf, gaps) {
          OutsideStaysKept(before, before, start, store.log, changes[i], resourceOf, was, gaps);
        }
        OutsideStaysKept(before, start, store.log, store.log, changes[k], resourceOf, found, gaps);
        forall x | x in sources ensures HasId(store.log, x) {
          ProgressExtends(start, store.log, caller);
          HasIdGrows(start, store.log, x);
        }
        if id.Some? {
          ids := ids + [id.value];
          if analyzed { sources := sources + [id.value]; }
        }
      }
    }

    method PersistOneOutOfBand(change: Effects.Change, env: Environment, ghost caller: Option<Id>)
      returns (id: Option<Id>, analyzed: bool, gaps: seq<Gap>)
      modifies this, store
      ensures Progress(old(store.log), store.log, caller) && Uncaused(old(store.log), store.log)
      ensures Fresh(old(store.log), store.log, old(nextId), nextId)
      ensures id.Some? ==> HasId(store.log, id.value)
      ensures !OnlyOrigin(gaps) && OutsideGap(change) in gaps
      ensures OutsideKept(old(store.log), store.log, change, resourceOf, gaps)
    {
      ghost var start := store.log;
      gaps := [Gap(change.path, "effect was observed outside the intercepted MCP call")];
      id, analyzed := None, false;
      var eventId := CreateEventId();
      var event := Event(eventId, None, FileChanged(resourceOf(change.path)));
      ProgressByOne(start, event, caller);
      FreshOne(start, event, eventId, nextId);
      FreshNone(start, eventId, nextId);
      var ok := store.Append(event);
      assert !gaps[0].SnapshotOrigin?;
      if !ok {
        gaps := gaps + [Gap(change.path, "out-of-band effect persistence failed")];
        assert gaps[0] == OutsideGap(change) && gaps[1] == Gap(change.path, "out-of-band effect persistence failed");
        return;
      }
      ghost var middle, next := store.log, nextId;
      assert Uncaused(start, middle);
      hide Progress, Uncaused, Fresh, HasId;
      var _, derived, found := AnalyzeChange(eventId, change.path, "out-of-band effect persistence failed", env, caller);
      id, analyzed := Some(eventId), derived;
      ProgressIsTransitive(start, middle, store.log, caller);
      FreshThrough(start, middle, store.log, eventId, next, nextId);
      ProgressExtends(start, middle, caller);
      ProgressExtends(middle, store.log, caller);
      UncausedThrough(start, middle, store.log);
      HasIdGrows(middle, store.log, eventId);
      gaps := gaps + found;
      assert gaps[0] == OutsideGap(change) && store.log[|start|] == middle[|start|] == event;
    }

    /**
     * `persistResolvedDependencies`: all dependency events of the call or none, each caused by its
     * consumer's persisted file change. A reason is given exactly when they are not known to be there.
     */
    method PersistResolvedDependencies(sources: seq<Id>, env: Environment, ghost caller: Option<Id>) returns (reason: Option<string>)
      requires forall x :: x in sources ==> HasId(store.log, x)
      modifies this, store
      ensures Progress(old(store.log), store.log, caller) && Uncaused(old(store.log), store.log)
      ensures store.log == old(store.log)
              || DependencyPairs(store.log[|old(store.log)|..], env.resolve(sources), |env.resolve(sources)|)
      ensures store.log != old(store.log) || reason == None ==> forall r :: r in env.resolve(sources) ==> r.source in sources
      ensures reason == None ==> DependencyPairs(store.log[|old(store.log)|..], env.resolve(sources), |env.resolve(sources)|)
      ensures reason.Some? && Honest(store) ==> store.log == old(store.log)
      ensures reason.Some? ==> env.resolve(sources) != []
      ensures Fresh(old(store.log), store.log, old(nextId), nextId)
    {
      ghost var before, from := store.log, nextId;
      var resolved := env.resolve(sources);
      var derived, missing := BuildDependencies(sources, resolved, caller);
      NoProgress(before, caller);
      FreshNone(before, from, nextId);
      assert (before + derived)[|before|..] == derived && before + [] == before;
      if missing { return Some("resolved dependency is missing its consumer source context"); }
      if derived == [] { return None; }
      hide Progress, Fresh, Uncaused, DependencyPairs;
      var status := store.AppendAtomic(derived);
      return if status == Appended then None else Some("derived dependency event persistence failed");
    }

    /** The events of the resolved dependencies, or a consumer that is missing among the analyzed sources. */
    method BuildDependencies(sources: seq<Id>, resolved: seq<Resolution>, ghost caller: Option<Id>) returns (derived: seq<Event>, missing: bool)
      requires forall x :: x in sources ==> HasId(store.log, x)
      modifies this
      ensures nextId >= old(nextId)
      ensures missing <==> exists k :: 0 <= k < |resolved| && resolved[k].source !in sources
      ensures !missing ==> DependencyPairs(derived, resolved, |resolved|)
      ensures !missing ==> Progress(store.log, store.log + derived, caller) && Uncaused(store.log, store.log + derived)
      ensures !missing ==> Fresh(store.log, store.log + derived, old(nextId), nextId)
    {
      hide HasId, Progress, Fresh, Uncaused;
      ghost var log, from := store.log, nextId;
      derived, missing := [], false;
      NoProgress(log, caller);
      FreshNone(log, from, nextId);
      assert log + [] == log;
      for k := 0 to |resolved|
        invariant nextId >= from
        invariant Progress(log, log + derived, caller) && Fresh(log, log + derived, from, nextId)
        invariant DependencyPairs(derived, resolved, k) && forall i :: 0 <= i < k ==> resolved[i].source in sources
      {
        var r := resolved[k];
        if r.source !in sources { return [], true; }
        ghost var at := nextId;
        var id := CreateEventId();
        var evidenceId := CreateEventId();
        DependencyStep(log, derived, resolved, k, id, from, caller);
        derived := derived + [Event(id, Some(r.source), DependencyChanged(r.dependencyId, r.dependent)), Event(evidenceId, Some(id), EvidenceDerived)];
      }
      PairsAreUncaused(log, derived, resolved);
    }

    /** Both observation boundaries and the difference between them, with the gaps they leave. */
    method Observe(call: Call, context: Context, env: Environment)
      returns (changes: seq<Effects.Change>, outOfBand: seq<Effects.Change>, both: bool, gaps: seq<Gap>)
      ensures both <==> hasObserver && context.hasRoot && env.before.Captured? && env.after.Captured?
      ensures both ==> Effects.IsDiff(env.before.capture.files, env.after.capture.files, changes)
      ensures outOfBand == if hasObserver && context.hasRoot then OutOfBandOf(env.before) + OutOfBandOf(env.after) else []
      ensures !both ==> changes == []
      ensures OnlyOrigin(gaps) && outOfBand == [] <==> (hasObserver ==> WellObserved(call, context, env))
      ensures OnlyOrigin(gaps) ==> (gaps == [] <==> (hasObserver ==> NoCaptureGaps(env)))
      ensures forall g :: g in gaps <==> hasObserver && ObservationGap(call, context, env, g)
    {
      hide Effects.IsDiff, Effects.Twins;
      changes, outOfBand, both, gaps := [], [], false, [];
      if !hasObserver { return; }
      if !context.hasRoot {
        gaps := [Gap("workspace", "workspace root was not supplied for observation")];
        assert !gaps[0].SnapshotOrigin?;
        return;
      }
      gaps := CaptureGaps(env);
      outOfBand := (if env.before.Captured? then env.before.capture.outOfBand else [])
                   + (if env.after.Captured? then env.after.capture.outOfBand else []);
      if env.before.BoundaryThrew? || env.after.BoundaryThrew? {
        var missing := Gap("tool.effects", "effect comparison requires both observation boundaries");
        OnlyOriginOfBoth(gaps, [missing]);
        OneGap(missing);
        gaps := gaps + [missing];
        return;
      }
      both := true;
      var diffGaps: seq<Gap>;
      changes, diffGaps := DiffBoundaries(env.before.capture.files, env.after.capture.files, call.opaqueCall);
      OnlyOriginOfBoth(gaps, diffGaps);
      gaps := gaps + diffGaps;
    }

    /** The gaps of the two boundaries, in the order in which they are met. */
    method CaptureGaps(env: Environment) returns (gaps: seq<Gap>)
      ensures OnlyOrigin(gaps) <==> && env.before.Captured? && env.after.Captured? && !env.after.degraded
                                    && OnlyOrigin(env.before.capture.gaps) && OnlyOrigin(env.after.capture.gaps)
      ensures OnlyOrigin(gaps) ==> (gaps == [] <==> NoCaptureGaps(env))
      ensures forall g :: g in gaps <==>
                || BoundaryGap(env.before, "before", "pre-execution observation failed", g)
                || BoundaryGap(env.after, "after", "post-execution observation failed", g)
                || (env.after.Captured? && env.after.degraded
                    && g == Gap("observation.window", "incremental observation window requires reconciliation"))
    {
      var first := match env.before {
        case BoundaryThrew => [Gap("before", "pre-execution observation failed")]
        case Captured(capture, _) => capture.gaps
      };
      var second := match env.after {
        case BoundaryThrew => [Gap("after", "post-execution observation failed")]
        case Captured(capture, degraded) =>
          (if degraded then [Gap("observation.window", "incremental observation window requires reconciliation")] else []) + capture.gaps
      };
      OnlyOriginOfBoth(first, second);
      gaps := first + second;
      assert env.before.BoundaryThrew? ==> !first[0].SnapshotOrigin?;
      assert env.after.BoundaryThrew? || env.after.degraded ==> !second[0].SnapshotOrigin?;
      assert env.after.Captured? && !env.after.degraded ==> second == env.after.capture.gaps;
    }

    /** `diffSnapshots` with its gaps as observation gaps. */
    method DiffBoundaries(before: Effects.Files, after: Effects.Files, opaqueCall: bool) returns (changes: seq<Effects.Change>, gaps: seq<Gap>)
      ensures Effects.IsDiff(before, after, changes)
      ensures OnlyOrigin(gaps) <==> gaps == []
      ensures gaps == [] <==> !opaqueCall && forall d :: d in before && d !in after ==> |Effects.Twins(before, after, d)| <= 1
      ensures forall g :: g in gaps <==> DifferenceGap(before, after, opaqueCall, g)
    {
      hide Effects.IsDiff, Effects.Twins;
      var effectGaps: seq<Effects.EffectGap>;
      changes, effectGaps := Effects.DiffSnapshots(before, after, opaqueCall);
      gaps := seq(|effectGaps|, i requires 0 <= i < |effectGaps| => GapOf(effectGaps[i]));
      EffectGapsAre(before, after, opaqueCall, effectGaps, gaps);
    }

    /** Everything between the request and the completion. */
    method Gather(call: Call, context: Context, env: Environment, request: Id)
      returns (effects: seq<Id>, intercepted: seq<Intercepted>, outOfBand: seq<Id>, gaps: seq<Gap>, both: bool)
      requires HasId(store.log, request)
      modifies this, store
      ensures Progress(old(store.log), store.log, context.causation)
      ensures forall x :: x in effects ==> IsEffect(store.log, request, x)
      ensures forall i :: 0 <= i < |intercepted| ==> intercepted[i].id in effects && HasId(store.log, intercepted[i].id)
      ensures Attributable(call, env.execution, intercepted, gaps, outOfBand) ==>
                AttributionSound(call, context, env, resourceOf, IdsOf(intercepted)) && DeclarationsKept(store.log, request, call)
      ensures both <==> hasObserver && context.hasRoot && env.before.Captured? && env.after.Captured?
      ensures Honest(store) ==> Listed(old(store.log), store.log, request, effects)
      ensures Fresh(old(store.log), store.log, old(nextId), nextId)
      ensures Measured(store.log, |old(store.log)|, request, call, context, env, hasObserver, resourceOf, intercepted, outOfBand, gaps, Honest(store))
      ensures ObservationReported(call, context, env, hasObserver, gaps)
    {
      hide OutsideReported, OutsideKept, OutsideGap, OutOfBandOf;
      hide Listed, ObservationGap, ObservationReported, Uncaused, Honest, Fresh, DependencyPairs, Settles, OnlyChanges,
        Measured, NothingMissing, ReadKept, WellObserved, NoCaptureGaps;
      hide Grown, IsEffect, HasId, Progress, OnlyOrigin, AttributionSound, SameResources, WriteFits, Recorded, Intercepts, Attributable, DeclarationsKept,
        Analyzed, ResourcesOf, ChangedResources, Effects.IsDiff, IdsOf;
      ghost var caller := context.causation;
      ghost var l0, n0 := store.log, nextId;
      var readGaps := RecordRead(call, request, caller);
      ghost var l1, n1 := store.log, nextId;
      ProgressExtends(l0, l1, caller);
      HasIdGrows(l0, l1, request);
      var changes, outside, taken, observed := Observe(call, context, env);
      both := taken;
      var sources, effectGaps;
      effects, intercepted, sources, effectGaps := PersistChanges(changes, request, env, caller);
      ghost var l2, n2 := store.log, nextId;
      var outsideSources, outsideGaps;
      outOfBand, outsideSources, outsideGaps := PersistOutOfBand(outside, env, caller);
      ghost var l3, n3 := store.log, nextId;
      ProgressExtends(l2, l3, caller);
      ChangesGrow(l2, l3, request, effects, intercepted, sources);
      var reason := PersistResolvedDependencies(sources + outsideSources, env, caller);
      ghost var l4 := store.log;
      ProgressByStages(l0, l1, l2, l3, l4, n0, n1, n2, n3, nextId, request, effects, Honest(store), caller);
      ChangesGrow(l3, l4, request, effects, intercepted, sources);
      var dependencyGaps := if reason.Some? then [Gap("source:dependencies", reason.value)] else [];
      var writeGaps := DependentWriteGaps(call, context, intercepted);
      gaps := readGaps + observed + effectGaps + outsideGaps + dependencyGaps + writeGaps;
      AllReported(call, context, env, hasObserver, observed, outside, outsideGaps, readGaps, effectGaps, dependencyGaps + writeGaps);
      assert readGaps + observed + effectGaps + outsideGaps + (dependencyGaps + writeGaps) == gaps;
      OneGap(Gap("source:dependencies", if reason.Some? then reason.value else ""));
      Gathered(l0, l1, l2, l3, l4, request, call, context, env, hasObserver, resourceOf, changes, outside, intercepted, sources, outsideSources, outOfBand,
               readGaps, observed, effectGaps, outsideGaps, reason, dependencyGaps, writeGaps, Honest(store), n1);
    }

    /** The gaps of dependent-write metadata that does not fit the call: none exactly when it fits. */
    method DependentWriteGaps(call: Call, context: Context, intercepted: seq<Intercepted>) returns (gaps: seq<Gap>)
      ensures OnlyOrigin(gaps) <==> WriteFits(store.log, call, context, intercepted)
      ensures OnlyOrigin(gaps) <==> gaps == []
    {
      gaps := [];
      if call.dependentWrite.None? { return; }
      var change := FindIntercepted(intercepted, call.dependentWrite.value.resource);
      var dependency := HasDependency(store.log, call.dependentWrite.value);
      var unmatched := if change.None? then [Gap("write.dependent", "dependent write metadata did not match an intercepted changed resource")] else [];
      var unattributed := if !context.hasTask then [Gap("write.dependent", "dependent write metadata requires task attribution")] else [];
      var unknown := if !dependency then [Gap("write.dependent", "dependent write metadata did not reference a durable matching dependency")] else [];
      gaps := unmatched + unattributed + unknown;
      OnlyOriginOfBoth(unmatched + unattributed, unknown);
      OnlyOriginOfBoth(unmatched, unattributed);
      assert change.None? ==> !unmatched[0].SnapshotOrigin?;
      assert !context.hasTask ==> !unattributed[0].SnapshotOrigin?;
      assert !dependency ==> !unknown[0].SnapshotOrigin?;
    }

    /**
     * `execute`. Whatever pattern of appends fails, the log it leaves is causally closed, at most one
     * completion is appended and it claims no more than was persisted, and a dependent write follows
     * the completion that lists its effect.
     */
    method Execute(call: Call, context: Context, env: Environment) returns (result: Result)
      modifies this, store
      ensures Transaction(old(store.log), store.log, call, context, env, resourceOf)
      ensures Honest(store) ==> NothingOmitted(old(store.log), store.log)
      ensures IdsBelow(old(store.log), old(nextId)) && DistinctIds(old(store.log)) ==> IdsBelow(store.log, nextId) && DistinctIds(store.log)
      ensures result.RequestThrew? ==> |store.log| <= |old(store.log)| + 1
      ensures result.Returned? ==> CompletedBy(old(store.log), store.log, result.request, result.completion)
      ensures result.Returned? ==> result.sufficient == if hasObserver then Some(result.gaps == []) else None
      ensures Reported(old(store.log), store.log, old(nextId), call, context, env, hasObserver, resourceOf, result, Honest(store))
    {
      hide Grown, IsEffect, HasId, Progress, OnlyOrigin, AttributionSound, Attributable, Caused, Transaction,
        CompletedBy, HasDependentWrite, NothingOmitted, Listed, Honest, Fresh, IdsBelow, DistinctIds;
      ghost var caller := context.causation;
      ghost var l0, n0 := store.log, nextId;
      var request := CreateEventId();
      var requested := Event(request, context.causation, Requested);
      CausedByCaller(l0, caller);
      ProgressByOne(l0, requested, caller);
      var ok := store.Append(requested);
      FreshOne(l0, requested, n0, nextId);
      FreshNone(l0, n0, nextId);
      StaysDistinct(l0, store.log, n0, nextId);
      if !ok {
        Begins(l0, store.log, call, context, env, resourceOf);
        NoCompletionOmitsNothing(l0, store.log);
        NoWriteYet(l0, l0, requested);
        return RequestThrew;
      }
      ghost var l1, n1 := store.log, nextId;
      var effects, intercepted, outOfBand, gaps, both := Gather(call, context, env, request);
      ghost var l2, n2 := store.log, nextId;
      FreshThrough(l0, l1, l2, n0, n1, n2);
      ProgressIsTransitive(l0, l1, l2, caller);
      ProgressExtends(l1, l2, caller);
      assert l2[|l0|] == l1[|l0|] == requested;
      HasIdGrows(l1, l2, request);
      Begins(l0, l2, call, context, env, resourceOf);
      if Honest(store) {
        NothingListed(l0, request);
        FirstIsNoEffect(l0, requested, request);
        ListedThrough(l0, l1, l2, request, [], effects);
        assert [] + effects == effects;
      }
      result := Complete(call, context, env, l0, request, effects, intercepted, outOfBand, gaps, both);
      FreshThrough(l0, l2, store.log, n0, n2, nextId);
      StaysDistinct(l0, store.log, n0, nextId);
    }

    /** The completion, with what the call may claim, and then the dependent write. */
    method Complete(call: Call, context: Context, env: Environment, ghost l0: seq<Event>, request: Id, effects: seq<Id>,
                    intercepted: seq<Intercepted>, outOfBand: seq<Id>, gaps: seq<Gap>, both: bool) returns (result: Result)
      requires Transaction(l0, store.log, call, context, env, resourceOf) && |l0| < |store.log| && store.log[|l0|].id == request
      requires forall i :: |l0| <= i < |store.log| ==> !store.log[i].kind.Completed? && !store.log[i].kind.DependentWrite?
      requires HasId(store.log, request) && l0 <= store.log
      requires forall x :: x in effects ==> IsEffect(store.log, request, x)
      requires forall i :: 0 <= i < |intercepted| ==> intercepted[i].id in effects && HasId(store.log, intercepted[i].id)
      requires Attributable(call, env.execution, intercepted, gaps, outOfBand) ==>
                 AttributionSound(call, context, env, resourceOf, IdsOf(intercepted)) && DeclarationsKept(store.log, request, call)
      requires Honest(store) ==> Listed(l0, store.log, request, effects)
      requires Measured(store.log, |l0| + 1, request, call, context, env, hasObserver, resourceOf, intercepted, outOfBand, gaps, Honest(store))
      requires ObservationReported(call, context, env, hasObserver, gaps)
      modifies this, store
      ensures Transaction(l0, store.log, call, context, env, resourceOf)
      ensures Honest(store) ==> NothingOmitted(l0, store.log)
      ensures Fresh(old(store.log), store.log, old(nextId), nextId)
      ensures !result.RequestThrew?
      ensures result.Returned? ==> CompletedBy(l0, store.log, result.request, result.completion) && result.request == request
      ensures result.Returned? ==> result.sufficient == if hasObserver then Some(result.gaps == []) else None
      ensures Reported(l0, store.log, request, call, context, env, hasObserver, resourceOf, result, Honest(store))
    {
      hide Grown, IsEffect, HasId, OnlyOrigin, AttributionSound, DeclarationsKept, Attributable, Transaction, CompletedBy, HasDependentWrite;
      hide NothingOmitted, Listed, Honest, Fresh, Measured, Reported, WithoutGap, WritesPlainly, SameResources,
        Intercepts, CompletionSound, ObservationReported;
      ghost var l2, n2 := store.log, nextId;
      var attributed := AttributedIds(call, env.execution, intercepted, gaps, outOfBand);
      var completion := CreateEventId();
      var completed := Event(completion, Some(request), Completed(request, env.execution.outcome, effects, attributed));
      ClaimsAreSound(l2, request, call, context, env, resourceOf, effects, intercepted, attributed, completed);
      Completes(l0, l2, completed, call, context, env, resourceOf);
      if Honest(store) { OmitsNothing(l0, l2, completed, effects, request); }
      var ok := store.Append(completed);
      ghost var l3, n3 := store.log, nextId;
      FreshOne(l2, completed, n2, n3);
      FreshNone(l2, n2, n3);
      MeasuredGaps(l2, |l0| + 1, request, call, context, env, hasObserver, resourceOf, intercepted, outOfBand, gaps, attributed != [], Honest(store));
      if !ok {
        NoWriteYet(l0, l2, completed);
        NotReturned(l0, store.log, request, call, context, env, hasObserver, resourceOf, CompletionThrew(request), Honest(store));
        return CompletionThrew(request);
      }
      var change := if call.dependentWrite.Some? then FindIntercepted(intercepted, call.dependentWrite.value.resource) else None;
      if change.Some? { HasIdGrows(l2, l3, change.value); }
      result := AppendDependentWrite(call, context, env, l0, completed, change, both, if attributed == [] then gaps else WithoutOrigin(gaps));
      FreshThrough(l2, l3, store.log, n2, n3, nextId);
      StillReported(call, context, env, hasObserver, gaps, if attributed == [] then gaps else WithoutOrigin(gaps));
      ReportedAtEnd(l0, l2, l3, store.log, request, call, context, env, hasObserver, resourceOf, intercepted, change,
                    if attributed == [] then gaps else WithoutOrigin(gaps), attributed, result, Honest(store));
    }

    /** The dependent write that closes the transaction, with or without proof. */
    method AppendDependentWrite(call: Call, context: Context, env: Environment, ghost l0: seq<Event>, completed: Event,
                                change: Option<Id>, both: bool, gaps: seq<Gap>) returns (result: Result)
      requires completed.kind.Completed? && |l0| < |store.log| && store.log[|store.log| - 1] == completed
      requires completed.cause == Some(completed.kind.request)
      requires Transaction(l0, store.log, call, context, env, resourceOf)
      requires Honest(store) ==> NothingOmitted(l0, store.log)
      requires change.Some? ==> HasId(store.log, change.value) && change.value in completed.kind.effects && call.dependentWrite.Some?
      requires forall i :: |l0| <= i < |store.log| ==> !store.log[i].kind.DependentWrite?
      modifies this, store
      ensures Transaction(l0, store.log, call, context, env, resourceOf)
      ensures Honest(store) ==> NothingOmitted(l0, store.log)
      ensures Fresh(old(store.log), store.log, old(nextId), nextId)
      ensures result.DependentWriteThrew? || result.Returned?
      ensures result.Returned? ==> CompletedBy(l0, store.log, result.request, result.completion) && result.request == completed.kind.request
      ensures result.Returned? ==> result.sufficient == if hasObserver then Some(result.gaps == []) else None
      ensures result.Returned? ==>
                (result.gaps == [] <==> gaps == [] && (context.hasTarget && call.dependentWrite.Some? ==> HasDependentWrite(l0, store.log)))
      ensures result.Returned? ==> gaps <= result.gaps
      ensures context.hasTarget && HasDependentWrite(l0, store.log) ==>
                hasObserver && gaps == [] && env.proofPrerequisites && change.Some? && change.value in completed.kind.attributed
      ensures !context.hasTarget && HasDependentWrite(l0, store.log) ==> WritesPlainly(old(store.log), call, context, hasObserver, change)
      ensures !context.hasTarget && result.Returned? && WritesPlainly(old(store.log), call, context, hasObserver, change) ==>
                HasDependentWrite(l0, store.log)
      ensures Closing(old(store.log), store.log)
    {
      hide Grown, HasId, Transaction, IsEffect, NothingOmitted, Honest, Fresh;
      ghost var l3 := store.log;
      var request, completion := completed.kind.request, completed.id;
      var attributed := completed.kind.attributed;
      var resolved := gaps;
      var id := CreateEventId();
      var write := Event(id, change, DependentWrite);
      FreshOne(l3, write, old(nextId), nextId);
      FreshNone(l3, old(nextId), nextId);
      assert (l3 + [write])[|l3| - 1] == completed && (l3 + [write])[|l3|] == write;
      if Honest(store) { WriteOmitsNothing(l0, l3, write); }
      if context.hasTarget && call.dependentWrite.Some? {
        var proven := false;
        if env.proofPrerequisites && env.execution.outcome.Succeeded? && change.Some? && change.value in attributed
           && hasObserver && both && gaps == [] {
          Writes(l0, l3, completed, write, call, context, env, resourceOf);
          var status := store.AppendAtomic([write]);
          if status.Raised? { return DependentWriteThrew(request, completion); }
          proven := status.Appended?;
        }
        if !proven { resolved := resolved + [Gap("write.dependent", "proof-bearing dependent write lacks authority or bindings")]; }
      } else if hasObserver && change.Some? && HasDependency(store.log, call.dependentWrite.value) && context.hasTask {
        Writes(l0, l3, completed, write, call, context, env, resourceOf);
        var ok := store.Append(write);
        if !ok { return DependentWriteThrew(request, completion); }
      }
      return Returned(request, completion, resolved, if hasObserver then Some(resolved == []) else None);
    }
  }

  ghost predicate CompletedBy(before: seq<Event>, after: seq<Event>, request: Id, completion: Id) {
    exists c :: |before| <= c < |after| && after[c].kind.Completed? && after[c].id == completion && after[c].cause == Some(request)
  }

  ghost predicate HasDependentWrite(before: seq<Event>, after: seq<Event>) {
    exists w :: |before| <= w < |after| && after[w].kind.DependentWrite?
  }

  /**
   * What the returned gaps mean for the log, and what a dependent write means. No gap is returned only
   * if nothing is missing after the request, and on a store that does not throw after persisting
   * exactly then, except that a call with a target also needs its proof-bearing write. Such a write is
   * appended only where no gap is due; a plain one exactly when the declaration fits.
   */
  ghost predicate Reported(before: seq<Event>, after: seq<Event>, request: Id, call: Call, context: Context, env: Environment,
                           hasObserver: bool, resourceOf: string -> string, result: Result, honest: bool) {
    var from := |before| + 1;
    && (result.Returned? ==> ObservationReported(call, context, env, hasObserver, result.gaps))
    && (result.Returned? && result.gaps == [] ==> WithoutGap(after, from, request, call, context, env, hasObserver, resourceOf))
    && (result.Returned? && honest ==>
          (result.gaps == [] <==>
             && WithoutGap(after, from, request, call, context, env, hasObserver, resourceOf)
             && (context.hasTarget && call.dependentWrite.Some? ==> HasDependentWrite(before, after))))
    && (result.Returned? && result.gaps == [] && context.hasTarget && call.dependentWrite.Some? ==> HasDependentWrite(before, after))
    && (context.hasTarget && HasDependentWrite(before, after) ==>
          && hasObserver && env.proofPrerequisites && env.execution.outcome.Succeeded?
          && WithoutGap(after, from, request, call, context, env, hasObserver, resourceOf)
          && SameResources(env.execution.reported, ResourcesOf(Intercepts(after, from, request))))
    && (!context.hasTarget && honest && result.Returned? ==>
          (HasDependentWrite(before, after) <==>
             hasObserver && call.dependentWrite.Some? && WriteKept(after, from, request, call, context)))
  }

  /** A dependent write without proof is due. */
  ghost predicate WritesPlainly(log: seq<Event>, call: Call, context: Context, hasObserver: bool, change: Option<Id>) {
    hasObserver && change.Some? && call.dependentWrite.Some? && HasDependency(log, call.dependentWrite.value) && context.hasTask
  }

  lemma NoWriteYet(before: seq<Event>, log: seq<Event>, e: Event)
    requires before <= log && !e.kind.DependentWrite? && forall i :: |before| <= i < |log| ==> !log[i].kind.DependentWrite?
    ensures !HasDependentWrite(before, log) && !HasDependentWrite(before, log + [e])
  {
  }

  lemma NotReturned(before: seq<Event>, after: seq<Event>, request: Id, call: Call, context: Context, env: Environment,
                    hasObserver: bool, resourceOf: string -> string, result: Result, honest: bool)
    requires !result.Returned? && !HasDependentWrite(before, after)
    ensures Reported(before, after, request, call, context, env, hasObserver, resourceOf, result, honest)
  {
  }

  /** The returned gaps before the dependent write: the gathered ones, without the origin gaps if the call is attributed. */
  lemma MeasuredGaps(log: seq<Event>, from: nat, request: Id, call: Call, context: Context, env: Environment, hasObserver: bool,
                     resourceOf: string -> string, intercepted: seq<Intercepted>, outOfBand: seq<Id>, gaps: seq<Gap>, attributed: bool, honest: bool)
    requires Measured(log, from, request, call, context, env, hasObserver, resourceOf, intercepted, outOfBand, gaps, honest)
    requires attributed <==> Attributable(call, env.execution, intercepted, gaps, outOfBand)
    ensures var final := if attributed then WithoutOrigin(gaps) else gaps;
            && (final == [] ==> WithoutGap(log, from, request, call, context, env, hasObserver, resourceOf))
            && (honest && WithoutGap(log, from, request, call, context, env, hasObserver, resourceOf) ==> final == [])
    ensures attributed ==> env.execution.outcome.Succeeded? && SameResources(env.execution.reported, ResourcesOf(Intercepts(log, from, request)))
    ensures honest ==> Intercepts(log, from, request) == intercepted
  {
    hide Intercepts, NothingMissing, NoCaptureGaps;
    assert gaps == [] ==> OnlyOrigin(gaps);
    if OnlyOrigin(gaps) && hasObserver {
      TransparentCall(log, from, request, call, context, env, resourceOf);
      if SameResources(env.execution.reported, ResourcesOf(intercepted)) { SomeResource(env.execution.reported, intercepted); }
    }
  }

  lemma AllReported(call: Call, context: Context, env: Environment, hasObserver: bool, observed: seq<Gap>, outside: seq<Effects.Change>,
                    outsideGaps: seq<Gap>, earlier: seq<Gap>, between: seq<Gap>, later: seq<Gap>)
    requires forall g :: g in observed <==> hasObserver && ObservationGap(call, context, env, g)
    requires outside == if hasObserver && context.hasRoot then OutOfBandOf(env.before) + OutOfBandOf(env.after) else []
    requires OutsideReported(outside, outsideGaps)
    ensures ObservationReported(call, context, env, hasObserver, earlier + observed + between + outsideGaps + later)
  {
    hide ObservationGap, OutsideGap;
    var gaps := earlier + observed + between + outsideGaps + later;
    assert forall g :: g in observed || g in outsideGaps ==> g in gaps;
    var first, second := OutOfBandOf(env.before), OutOfBandOf(env.after);
    assert forall i :: 0 <= i < |first| ==> (first + second)[i] == first[i];
    assert forall i :: 0 <= i < |second| ==> (first + second)[|first| + i] == second[i];
  }

  lemma StillReported(call: Call, context: Context, env: Environment, hasObserver: bool, gaps: seq<Gap>, rest: seq<Gap>)
    requires ObservationReported(call, context, env, hasObserver, gaps)
    requires rest == WithoutOrigin(gaps) || gaps <= rest
    ensures ObservationReported(call, context, env, hasObserver, rest)
  {
    hide ObservationGap;
    assert forall change :: !OutsideGap(change).SnapshotOrigin?;
    forall g | g in gaps && !g.SnapshotOrigin? ensures g in rest {
      if gaps <= rest { assert rest == gaps + rest[|gaps|..]; } else { OthersStay(gaps, g); }
    }
  }

  lemma {:induction false} OthersStay(gaps: seq<Gap>, g: Gap)
    ensures g in WithoutOrigin(gaps) <==> g in gaps && !g.SnapshotOrigin?
  {
    if gaps != [] { OthersStay(gaps[1..], g); }
  }

  lemma TransparentCall(log: seq<Event>, from: nat, request: Id, call: Call, context: Context, env: Environment, resourceOf: string -> string)
    requires NothingMissing(log, from, request, call, context, env, true, resourceOf)
    ensures !call.opaqueCall
  {
  }

  lemma SomeResource(reported: seq<string>, intercepted: seq<Intercepted>)
    requires SameResources(reported, ResourcesOf(intercepted))
    ensures intercepted != []
  {
    assert reported[0] in reported;
  }

  lemma ReportedAtEnd(l0: seq<Event>, l2: seq<Event>, l3: seq<Event>, l4: seq<Event>, request: Id, call: Call, context: Context, env: Environment,
                      hasObserver: bool, resourceOf: string -> string, intercepted: seq<Intercepted>, change: Option<Id>,
                      gaps: seq<Gap>, attributed: seq<Id>, result: Result, honest: bool)
    requires |l0| < |l2| && Closing(l2, l3) && Closing(l3, l4)
    requires gaps == [] ==> WithoutGap(l2, |l0| + 1, request, call, context, env, hasObserver, resourceOf)
    requires honest && WithoutGap(l2, |l0| + 1, request, call, context, env, hasObserver, resourceOf) ==> gaps == []
    requires attributed != [] ==> env.execution.outcome.Succeeded? && SameResources(env.execution.reported, ResourcesOf(Intercepts(l2, |l0| + 1, request)))
    requires honest ==> Intercepts(l2, |l0| + 1, request) == intercepted
    requires change == if call.dependentWrite.Some? then FindIntercepted(intercepted, call.dependentWrite.value.resource) else None
    requires ObservationReported(call, context, env, hasObserver, gaps)
    requires result.Returned? ==> gaps <= result.gaps
    requires result.Returned? ==>
               (result.gaps == [] <==> gaps == [] && (context.hasTarget && call.dependentWrite.Some? ==> HasDependentWrite(l0, l4)))
    requires context.hasTarget && HasDependentWrite(l0, l4) ==> hasObserver && gaps == [] && env.proofPrerequisites && attributed != []
    requires !context.hasTarget && HasDependentWrite(l0, l4) ==> WritesPlainly(l3, call, context, hasObserver, change)
    requires !context.hasTarget && result.Returned? && WritesPlainly(l3, call, context, hasObserver, change) ==> HasDependentWrite(l0, l4)
    ensures Reported(l0, l4, request, call, context, env, hasObserver, resourceOf, result, honest)
  {
    var from := |l0| + 1;
    assert Closing(l2, l4) by { assert forall i :: |l2| <= i < |l3| ==> l4[i] == l3[i]; }
    ClosingKeeps(l2, l4, from, request, call, context, env, hasObserver, resourceOf);
    ClosingKeeps(l3, l4, from, request, call, context, env, hasObserver, resourceOf);
    FitsWhenKept(l3, from, request, call, context);
    if result.Returned? { StillReported(call, context, env, hasObserver, gaps, result.gaps); }
    hide ObservationReported, Intercepts, NothingMissing, SameResources, HasDependentWrite, FindIntercepted, WriteKept, HasDependency, Closing;
    assert WithoutGap(l2, from, request, call, context, env, hasObserver, resourceOf)
           <==> WithoutGap(l4, from, request, call, context, env, hasObserver, resourceOf);
    hide WithoutGap;
  }

  /** What one call may have added to the log, whichever appends failed. */
  ghost predicate Transaction(before: seq<Event>, after: seq<Event>, call: Call, context: Context, env: Environment, resourceOf: string -> string) {
    && Grown(before, after, context.causation)
    && (|before| < |after| ==> after[|before|].kind.Requested? && after[|before|].cause == context.causation)
    && (forall c :: |before| <= c < |after| && after[c].kind.Completed? ==>
          CompletionSound(after[..c], after[|before|].id, call, context, env, resourceOf, after[c]))
    && (forall c, d :: |before| <= c < d < |after| ==> !(after[c].kind.Completed? && after[d].kind.Completed?))
    && (forall w :: |before| <= w < |after| && after[w].kind.DependentWrite? ==>
          call.dependentWrite.Some? && DependentWriteSound(after, |before|, w, context, env))
  }

  /** A completion lists every file change its request caused. */
  ghost predicate NothingOmitted(before: seq<Event>, after: seq<Event>) {
    forall c :: |before| <= c < |after| && after[c].kind.Completed? ==> Listed(before, after, after[|before|].id, after[c].kind.effects)
  }

  lemma FirstIsNoEffect(log: seq<Event>, requested: Event, request: Id)
    requires requested.kind.Requested?
    ensures Listed(log, log + [requested], request, [])
  {
  }

  lemma NoCompletionOmitsNothing(before: seq<Event>, after: seq<Event>)
    requires forall i :: |before| <= i < |after| ==> !after[i].kind.Completed?
    ensures NothingOmitted(before, after)
  {
  }

  lemma OmitsNothing(before: seq<Event>, log: seq<Event>, completed: Event, effects: seq<Id>, request: Id)
    requires before <= log && |before| < |log| && log[|before|].id == request && Listed(before, log, request, effects)
    requires completed.kind.Completed? && completed.kind.effects == effects
    requires forall i :: |before| <= i < |log| ==> !log[i].kind.Completed?
    ensures NothingOmitted(before, log + [completed]) && NothingOmitted(before, log)
  {
    assert forall i :: 0 <= i < |log| ==> (log + [completed])[i] == log[i];
  }

  lemma WriteOmitsNothing(before: seq<Event>, log: seq<Event>, write: Event)
    requires |before| < |log| && NothingOmitted(before, log) && write.kind.DependentWrite?
    ensures NothingOmitted(before, log + [write])
  {
    assert forall i :: 0 <= i < |log| ==> (log + [write])[i] == log[i];
  }

  lemma CausedByCaller(log: seq<Event>, caller: Option<Id>)
    ensures Caused(log, caller, caller)
  {
  }

  lemma Begins(before: seq<Event>, after: seq<Event>, call: Call, context: Context, env: Environment, resourceOf: string -> string)
    requires Progress(before, after, context.causation)
    requires |before| < |after| ==> after[|before|].kind.Requested? && after[|before|].cause == context.causation
    ensures Transaction(before, after, call, context, env, resourceOf)
    ensures forall i :: |before| <= i < |after| ==> !after[i].kind.Completed? && !after[i].kind.DependentWrite?
  {
    hide Grown;
  }

  lemma AttributedAreEffects(effects: seq<Id>, intercepted: seq<Intercepted>, attributed: seq<Id>)
    requires forall i :: 0 <= i < |intercepted| ==> intercepted[i].id in effects
    requires attributed != [] ==> attributed == IdsOf(intercepted)
    ensures forall x :: x in attributed ==> x in effects
  {
  }

  lemma ClaimsAreSound(log: seq<Event>, request: Id, call: Call, context: Context, env: Environment, resourceOf: string -> string,
                       effects: seq<Id>, intercepted: seq<Intercepted>, attributed: seq<Id>, completed: Event)
    requires completed.cause == Some(request) && completed.kind == Completed(request, env.execution.outcome, effects, attributed)
    requires forall x :: x in effects ==> IsEffect(log, request, x)
    requires forall i :: 0 <= i < |intercepted| ==> intercepted[i].id in effects
    requires attributed != [] ==>
               && attributed == IdsOf(intercepted)
               && AttributionSound(call, context, env, resourceOf, attributed) && DeclarationsKept(log, request, call)
    ensures CompletionSound(log, request, call, context, env, resourceOf, completed)
  {
    hide IsEffect, AttributionSound, DeclarationsKept;
    AttributedAreEffects(effects, intercepted, attributed);
  }

  lemma Completes(before: seq<Event>, log: seq<Event>, completed: Event, call: Call, context: Context, env: Environment, resourceOf: string -> string)
    requires Transaction(before, log, call, context, env, resourceOf) && |before| < |log|
    requires forall i :: |before| <= i < |log| ==> !log[i].kind.Completed? && !log[i].kind.DependentWrite?
    requires HasId(log, log[|before|].id)
    requires CompletionSound(log, log[|before|].id, call, context, env, resourceOf, completed)
    ensures Transaction(before, log + [completed], call, context, env, resourceOf)
  {
    hide Grown, HasId, CompletionSound;
    assert completed.cause == Some(log[|before|].id) && completed.kind.Completed? by { CompletionNames(log, log[|before|].id, call, context, env, resourceOf, completed); }
    CausedByEvent(log, log[|before|].id, context.causation);
    GrownByOne(before, log, completed, context.causation);
    assert (log + [completed])[..|log|] == log;
  }

  lemma CompletionNames(log: seq<Event>, request: Id, call: Call, context: Context, env: Environment, resourceOf: string -> string, e: Event)
    requires CompletionSound(log, request, call, context, env, resourceOf, e)
    ensures e.cause == Some(request) && e.kind.Completed?
  {
  }

  lemma Writes(before: seq<Event>, log: seq<Event>, completed: Event, write: Event, call: Call, context: Context, env: Environment, resourceOf: string -> string)
    requires Transaction(before, log, call, context, env, resourceOf)
    requires |before| < |log| && log[|log| - 1] == completed && completed.kind.Completed?
    requires write.kind.DependentWrite? && write.cause.Some? && HasId(log, write.cause.value)
    requires call.dependentWrite.Some? && write.cause.value in completed.kind.effects
    requires if context.hasTarget then env.proofPrerequisites && write.cause.value in completed.kind.attributed else context.hasTask
    ensures Transaction(before, log + [write], call, context, env, resourceOf)
  {
    hide Grown, HasId, CompletionSound, DependentWriteSound;
    var after := log + [write];
    CausedByEvent(log, write.cause.value, context.causation);
    GrownByOne(before, log, write, context.causation);
    assert forall c :: 0 <= c < |log| ==> after[c] == log[c] && after[..c] == log[..c];
    assert DependentWriteSound(after, |before|, |log|, context, env) by { FollowsCompletion(after, |before|, context, env); }
    forall w | |before| <= w < |log| && log[w].kind.DependentWrite? ensures DependentWriteSound(after, |before|, w, context, env) {
      EarlierWriteStays(log, after, |before|, w, context, env);
    }
  }

  lemma FollowsCompletion(log: seq<Event>, from: nat, context: Context, env: Environment)
    requires |log| >= 2 && from <= |log| - 2 && log[|log| - 2].kind.Completed?
    requires log[|log| - 1].cause.Some? && log[|log| - 1].cause.value in log[|log| - 2].kind.effects
    requires if context.hasTarget then env.proofPrerequisites && log[|log| - 1].cause.value in log[|log| - 2].kind.attributed else context.hasTask
    ensures DependentWriteSound(log, from, |log| - 1, context, env)
  {
  }

  lemma EarlierWriteStays(log: seq<Event>, after: seq<Event>, from: nat, w: nat, context: Context, env: Environment)
    requires log <= after && w < |log| && DependentWriteSound(log, from, w, context, env)
    ensures DependentWriteSound(after, from, w, context, env)
  {
    assert forall c :: 0 <= c <= w ==> after[c] == log[c];
  }

  lemma ProgressExtends(before: seq<Event>, after: seq<Event>, caller: Option<Id>)
    requires Progress(before, after, caller)
    ensures before <= after
  {
  }

  function GapOf(gap: Effects.EffectGap): Gap {
    match gap
    case AmbiguousRename(scope) => Gap(scope, "rename pairing is ambiguous")
    case OpaqueOperation => Gap("tool.effects", "opaque operation effects are not prospectively enumerable")
  }

  lemma OneGap(gap: Gap)
    requires !gap.SnapshotOrigin?
    ensures !OnlyOrigin([gap]) && OnlyOrigin([])
  {
    assert ![gap][0].SnapshotOrigin?;
  }

  lemma EffectGapsAre(before: Effects.Files, after: Effects.Files, opaqueCall: bool, effectGaps: seq<Effects.EffectGap>, gaps: seq<Gap>)
    requires forall d :: Effects.AmbiguousRename(d) in effectGaps <==> d in before && d !in after && |Effects.Twins(before, after, d)| > 1
    requires Effects.OpaqueOperation in effectGaps <==> opaqueCall
    requires |gaps| == |effectGaps| && forall i :: 0 <= i < |gaps| ==> gaps[i] == GapOf(effectGaps[i])
    ensures OnlyOrigin(gaps) <==> gaps == []
    ensures gaps == [] <==> !opaqueCall && forall d :: d in before && d !in after ==> |Effects.Twins(before, after, d)| <= 1
    ensures forall g :: g in gaps <==> DifferenceGap(before, after, opaqueCall, g)
  {
    hide Effects.Twins;
    if effectGaps != [] {
      assert !gaps[0].SnapshotOrigin?;
      assert effectGaps[0] in effectGaps;
    }
    forall g ensures g in gaps <==> DifferenceGap(before, after, opaqueCall, g) { EffectGapIs(before, after, opaqueCall, effectGaps, gaps, g); }
  }

  lemma EffectGapIs(before: Effects.Files, after: Effects.Files, opaqueCall: bool, effectGaps: seq<Effects.EffectGap>, gaps: seq<Gap>, g: Gap)
    requires forall d :: Effects.AmbiguousRename(d) in effectGaps <==> d in before && d !in after && |Effects.Twins(before, after, d)| > 1
    requires Effects.OpaqueOperation in effectGaps <==> opaqueCall
    requires |gaps| == |effectGaps| && forall i :: 0 <= i < |gaps| ==> gaps[i] == GapOf(effectGaps[i])
    ensures g in gaps <==> DifferenceGap(before, after, opaqueCall, g)
  {
    hide Effects.Twins, GapOf, DifferenceGap;
    if i :| 0 <= i < |gaps| && gaps[i] == g {
      assert effectGaps[i] in effectGaps;
      CauseOfGap(before, after, opaqueCall, effectGaps, g);
    }
    if DifferenceGap(before, after, opaqueCall, g) {
      CauseOfGap(before, after, opaqueCall, effectGaps, g);
      var cause :| cause in effectGaps && GapOf(cause) == g;
      var i :| 0 <= i < |effectGaps| && effectGaps[i] == cause;
      assert gaps[i] == g;
    }
  }

  lemma CauseOfGap(before: Effects.Files, after: Effects.Files, opaqueCall: bool, effectGaps: seq<Effects.EffectGap>, g: Gap)
    requires forall d :: Effects.AmbiguousRename(d) in effectGaps <==> d in before && d !in after && |Effects.Twins(before, after, d)| > 1
    requires Effects.OpaqueOperation in effectGaps <==> opaqueCall
    ensures DifferenceGap(before, after, opaqueCall, g) <==> exists cause :: cause in effectGaps && GapOf(cause) == g
  {
    hide Effects.Twins;
    if opaqueCall { assert Effects.OpaqueOperation in effectGaps; }
    if g.Gap? { assert Effects.AmbiguousRename(g.scope) in effectGaps ==> GapOf(Effects.AmbiguousRename(g.scope)).Gap?; }
  }

  // ---- The gaps before the completion ----

  /** The stages of one call between its request and its completion, as their contracts leave the log. */
  ghost predicate Stages(l0: seq<Event>, l1: seq<Event>, l2: seq<Event>, l3: seq<Event>, l4: seq<Event>, request: Id, call: Call, env: Environment,
                         n: nat, intercepted: seq<Intercepted>, sources: seq<Id>,
                         readGaps: seq<Gap>, effectGaps: seq<Gap>, reason: Option<string>, honest: bool, since: Id) {
    && l0 <= l1 && l2 == l3 && l3 <= l4 && OnlyChanges(l1, l2, since) && Uncaused(l3, l4)
    && (forall i :: |l0| <= i < |l1| ==> l1[i].kind.FileRead?)
    && (readGaps == [] ==> ReadKept(l1, |l0|, request, call))
    && (honest && readGaps != [] ==> call.observedRead.Some? && l1 == l0)
    && Settles(env, l1, l2, request, n, intercepted, sources, effectGaps, honest)
    && (l4 == l3 || DependencyPairs(l4[|l3|..], env.resolve(sources), |env.resolve(sources)|))
    && (reason == None ==>
          DependencyPairs(l4[|l3|..], env.resolve(sources), |env.resolve(sources)|) && forall r :: r in env.resolve(sources) ==> r.source in sources)
    && (reason.Some? ==> env.resolve(sources) != [] && (honest ==> l4 == l3))
  }

  lemma FilesOfStages(l0: seq<Event>, l1: seq<Event>, l2: seq<Event>, l3: seq<Event>, l4: seq<Event>, request: Id)
    requires l0 <= l1 <= l2 <= l3 <= l4 && Uncaused(l2, l3) && Uncaused(l3, l4)
    requires forall i :: |l0| <= i < |l1| ==> l1[i].kind.FileRead?
    ensures Intercepts(l4, |l0|, request) == Intercepts(l2, |l1|, request)
    ensures forall i :: |l0| <= i < |l4| && UnderRequest(l4[i], request) ==> |l1| <= i < |l2|
  {
    hide Intercepts;
    forall i | |l2| <= i < |l4| ensures !UnderRequest(l4[i], request) { assert i < |l3| ==> l4[i] == l3[i]; }
    forall i | 0 <= i < |l1| ensures l4[i] == l1[i] { assert l2[i] == l1[i] && l3[i] == l2[i]; }
    InterceptsSplit(l2, l4, |l0|, request);
    NoIntercepts(l4, |l2|, request);
    InterceptsSplit(l1, l2, |l0|, request);
    NoIntercepts(l1, |l0|, request);
  }

  lemma PairsAreDependencies(log: seq<Event>, after: seq<Event>, resolved: seq<Resolution>)
    requires log <= after && (after == log || DependencyPairs(after[|log|..], resolved, |resolved|))
    ensures forall i :: |log| <= i < |after| ==> after[i].kind.DependencyChanged? || after[i].kind.EvidenceDerived?
  {
    forall i | |log| <= i < |after| ensures after[i].kind.DependencyChanged? || after[i].kind.EvidenceDerived? {
      var j := i - |log|;
      assert after[i] == after[|log|..][j] && j == 2 * (j / 2) + j % 2;
    }
  }

  lemma PairsKeepDependencies(log: seq<Event>, after: seq<Event>, from: nat, sources: seq<Id>, env: Environment)
    requires from <= |log| && log <= after
    requires DependencyPairs(after[|log|..], env.resolve(sources), |env.resolve(sources)|)
    requires forall r :: r in env.resolve(sources) ==> r.source in sources
    ensures DependenciesKept(after, from, sources, env)
  {
    var resolved := env.resolve(sources);
    forall r | r in resolved
      ensures exists j :: from <= j < |after| && after[j].kind == DependencyChanged(r.dependencyId, r.dependent) && after[j].cause == Some(r.source)
    {
      var k :| 0 <= k < |resolved| && resolved[k] == r;
      assert after[|log| + 2 * k] == after[|log|..][2 * k];
    }
  }

  lemma FitsWhenKept(log: seq<Event>, from: nat, request: Id, call: Call, context: Context)
    ensures WriteFits(log, call, context, Intercepts(log, from, request)) <==> WriteKept(log, from, request, call, context)
  {
    if call.dependentWrite.Some? { WriteNamesIntercept(log, from, request, call.dependentWrite.value.resource); }
  }

  lemma StagesWithoutGaps(l0: seq<Event>, l1: seq<Event>, l2: seq<Event>, l3: seq<Event>, l4: seq<Event>, request: Id, call: Call, context: Context,
                          env: Environment, hasObserver: bool, resourceOf: string -> string, changes: seq<Effects.Change>,
                          intercepted: seq<Intercepted>, sources: seq<Id>, honest: bool, since: Id)
    requires Stages(l0, l1, l2, l3, l4, request, call, env, |changes|, intercepted, sources, [], [], None, honest, since)
    requires hasObserver ==> WellObserved(call, context, env)
    requires hasObserver ==> env.before.Captured? && env.after.Captured? && Effects.IsDiff(env.before.capture.files, env.after.capture.files, changes)
    requires ResourcesOf(intercepted) == ChangedResources(changes, resourceOf)
    requires WriteFits(l4, call, context, intercepted)
    ensures NothingMissing(l4, |l0|, request, call, context, env, hasObserver, resourceOf)
  {
    FilesOfStages(l0, l1, l2, l3, l4, request);
    PairsKeepDependencies(l3, l4, |l0|, sources, env);
    FitsWhenKept(l4, |l0|, request, call, context);
    assert ReadKept(l4, |l0|, request, call);
    forall i | |l0| <= i < |l4| && UnderRequest(l4[i], request) ensures Recorded(env, l4, i) { RecordedStays(env, l2, l4, i); }
    hide Intercepts, Recorded, Effects.IsDiff, WellObserved, ReadKept, WriteKept, DependenciesKept, FactSources, ResourcesOf, ChangedResources;
    assert AllRecorded(env, l4, |l0|, request);
  }

  lemma EffectsNotMissing(l0: seq<Event>, l1: seq<Event>, l2: seq<Event>, l3: seq<Event>, l4: seq<Event>, request: Id, call: Call, env: Environment,
                          resourceOf: string -> string, changes: seq<Effects.Change>, intercepted: seq<Intercepted>, sources: seq<Id>,
                          readGaps: seq<Gap>, effectGaps: seq<Gap>, reason: Option<string>, since: Id)
    requires Stages(l0, l1, l2, l3, l4, request, call, env, |changes|, intercepted, sources, readGaps, effectGaps, reason, true, since)
    requires env.before.Captured? && env.after.Captured? && Effects.IsDiff(env.before.capture.files, env.after.capture.files, changes)
    requires DifferencesKept(l4, |l0|, request, env, resourceOf)
    ensures effectGaps == []
  {
    FilesOfStages(l0, l1, l2, l3, l4, request);
    var same :| Effects.IsDiff(env.before.capture.files, env.after.capture.files, same)
                && ResourcesOf(Intercepts(l4, |l0|, request)) == ChangedResources(same, resourceOf);
    Effects.DiffIsUnique(env.before.capture.files, env.after.capture.files, same, changes);
    hide Effects.IsDiff, Recorded, Unrecorded, Intercepts;
    assert |intercepted| == |changes|;
    PairsAreDependencies(l3, l4, env.resolve(sources));
    if SomeUnrecorded(env, l2, |l1|, request) {
      UnrecordedStays(env, l2, l4, |l1|, request);
      var i :| |l1| <= i < |l4| && UnderRequest(l4[i], request) && Unrecorded(env, l4, i);
      RecordedIsNotUnrecorded(env, l4, i);
      assert false;
    }
  }

  lemma ReadNotMissing(l0: seq<Event>, l1: seq<Event>, l2: seq<Event>, l3: seq<Event>, l4: seq<Event>, request: Id, call: Call, env: Environment,
                       n: nat, intercepted: seq<Intercepted>, sources: seq<Id>,
                       readGaps: seq<Gap>, effectGaps: seq<Gap>, reason: Option<string>, since: Id)
    requires Stages(l0, l1, l2, l3, l4, request, call, env, n, intercepted, sources, readGaps, effectGaps, reason, true, since)
    requires ReadKept(l4, |l0|, request, call)
    ensures readGaps == []
  {
    PairsAreDependencies(l3, l4, env.resolve(sources));
    assert forall i :: 0 <= i < |l3| ==> l4[i] == l3[i];
  }

  lemma DependenciesNotMissing(l0: seq<Event>, l1: seq<Event>, l2: seq<Event>, l3: seq<Event>, l4: seq<Event>, request: Id, call: Call, env: Environment,
                               n: nat, intercepted: seq<Intercepted>, sources: seq<Id>,
                               readGaps: seq<Gap>, effectGaps: seq<Gap>, reason: Option<string>, since: Id)
    requires Stages(l0, l1, l2, l3, l4, request, call, env, n, intercepted, sources, readGaps, effectGaps, reason, true, since)
    requires DependenciesKept(l4, |l0|, sources, env)
    ensures reason == None
  {
    assert forall i :: 0 <= i < |l1| ==> l2[i] == l1[i];
    assert env.resolve(sources) == [] || env.resolve(sources)[0] in env.resolve(sources);
  }

  lemma MeasuredByStages(l0: seq<Event>, l1: seq<Event>, l2: seq<Event>, l3: seq<Event>, l4: seq<Event>, request: Id, call: Call, context: Context,
                         env: Environment, hasObserver: bool, resourceOf: string -> string, changes: seq<Effects.Change>, outside: seq<Effects.Change>,
                         intercepted: seq<Intercepted>, sources: seq<Id>, outOfBand: seq<Id>, readGaps: seq<Gap>, observed: seq<Gap>,
                         effectGaps: seq<Gap>, outsideGaps: seq<Gap>, reason: Option<string>, gaps: seq<Gap>, honest: bool, since: Id)
    requires outside == [] ==>
               && Stages(l0, l1, l2, l3, l4, request, call, env, |changes|, intercepted, sources, readGaps, effectGaps, reason, honest, since)
               && outOfBand == [] && outsideGaps == []
    requires l0 <= l1 <= l2 <= l3 <= l4 && Uncaused(l2, l3) && Uncaused(l3, l4) && forall i :: |l0| <= i < |l1| ==> l1[i].kind.FileRead?
    requires Settles(env, l1, l2, request, |changes|, intercepted, sources, effectGaps, honest)
    requires OnlyOrigin(observed) && outside == [] <==> (hasObserver ==> WellObserved(call, context, env))
    requires OnlyOrigin(observed) ==> (observed == [] <==> (hasObserver ==> NoCaptureGaps(env)))
    requires hasObserver && WellObserved(call, context, env) ==>
               env.before.Captured? && env.after.Captured? && Effects.IsDiff(env.before.capture.files, env.after.capture.files, changes)
    requires !hasObserver ==> changes == []
    requires effectGaps == [] ==> ResourcesOf(intercepted) == ChangedResources(changes, resourceOf)
    requires OnlyOrigin(gaps) <==> readGaps == [] && OnlyOrigin(observed) && effectGaps == [] && outside == [] && reason == None
                                   && WriteFits(l4, call, context, intercepted)
    requires OnlyOrigin(gaps) ==> gaps == observed
    ensures Measured(l4, |l0|, request, call, context, env, hasObserver, resourceOf, intercepted, outOfBand, gaps, honest)
  {
    hide WellObserved, NoCaptureGaps, OnlyOrigin, WriteFits, Stages, Intercepts, ReadKept, WriteKept, DependenciesKept, DifferencesKept,
      FactSources, ResourcesOf, ChangedResources, Uncaused, Effects.IsDiff, AllRecorded, SomeUnrecorded;
    FilesOfStages(l0, l1, l2, l3, l4, request);
    if OnlyOrigin(gaps) {
      StagesWithoutGaps(l0, l1, l2, l3, l4, request, call, context, env, hasObserver, resourceOf, changes, intercepted, sources, honest, since);
    } else if honest && NothingMissing(l4, |l0|, request, call, context, env, hasObserver, resourceOf) {
      ReadNotMissing(l0, l1, l2, l3, l4, request, call, env, |changes|, intercepted, sources, readGaps, effectGaps, reason, since);
      if hasObserver {
        EffectsNotMissing(l0, l1, l2, l3, l4, request, call, env, resourceOf, changes, intercepted, sources, readGaps, effectGaps, reason, since);
      }
      assert effectGaps == [];
      DependenciesNotMissing(l0, l1, l2, l3, l4, request, call, env, |changes|, intercepted, sources, readGaps, effectGaps, reason, since);
      FitsWhenKept(l4, |l0|, request, call, context);
      assert false;
    }
  }

  /** Attribution and gaps of the gathered stages. */
  lemma Gathered(l0: seq<Event>, l1: seq<Event>, l2: seq<Event>, l3: seq<Event>, l4: seq<Event>, request: Id, call: Call, context: Context,
                 env: Environment, hasObserver: bool, resourceOf: string -> string, changes: seq<Effects.Change>, outside: seq<Effects.Change>,
                 intercepted: seq<Intercepted>, sources: seq<Id>, outsideSources: seq<Id>, outOfBand: seq<Id>, readGaps: seq<Gap>, observed: seq<Gap>,
                 effectGaps: seq<Gap>, outsideGaps: seq<Gap>, reason: Option<string>, dependencyGaps: seq<Gap>, writeGaps: seq<Gap>,
                 honest: bool, since: Id)
    requires outside == [] ==> l3 == l2 && outsideSources == [] && outOfBand == [] && outsideGaps == []
    requires OnlyChanges(l1, l2, since) && (honest && readGaps != [] ==> call.observedRead.Some? && l1 == l0)
    requires l3 <= l4 && (l4 == l3 || DependencyPairs(l4[|l3|..], env.resolve(sources + outsideSources), |env.resolve(sources + outsideSources)|))
    requires reason == None ==>
               && DependencyPairs(l4[|l3|..], env.resolve(sources + outsideSources), |env.resolve(sources + outsideSources)|)
               && forall r :: r in env.resolve(sources + outsideSources) ==> r.source in sources + outsideSources
    requires reason.Some? ==> env.resolve(sources + outsideSources) != [] && (honest ==> l4 == l3)
    requires l0 <= l1 <= l2 <= l3 <= l4 && Uncaused(l2, l3) && Uncaused(l3, l4) && forall i :: |l0| <= i < |l1| ==> l1[i].kind.FileRead?
    requires Settles(env, l1, l2, request, |changes|, intercepted, sources, effectGaps, honest)
    requires OnlyOrigin(observed) && outside == [] <==> (hasObserver ==> WellObserved(call, context, env))
    requires OnlyOrigin(observed) ==> (observed == [] <==> (hasObserver ==> NoCaptureGaps(env)))
    requires hasObserver && context.hasRoot && env.before.Captured? && env.after.Captured? ==>
               Effects.IsDiff(env.before.capture.files, env.after.capture.files, changes)
    requires !hasObserver ==> changes == []
    requires effectGaps == [] ==> ResourcesOf(intercepted) == ChangedResources(changes, resourceOf)
    requires effectGaps == [] ==> forall i :: 0 <= i < |intercepted| ==> Analyzed(env, intercepted[i].id)
    requires readGaps == [] ==> ReadKept(l1, |l0|, request, call)
    requires OnlyOrigin(readGaps) <==> readGaps == []
    requires OnlyOrigin(effectGaps) <==> effectGaps == []
    requires OnlyOrigin(outsideGaps) <==> outside == []
    requires OnlyOrigin(dependencyGaps) <==> reason == None
    requires dependencyGaps == [] <==> reason == None
    requires OnlyOrigin(writeGaps) <==> WriteFits(l4, call, context, intercepted)
    requires OnlyOrigin(writeGaps) <==> writeGaps == []
    ensures var gaps := readGaps + observed + effectGaps + outsideGaps + dependencyGaps + writeGaps;
            && Measured(l4, |l0|, request, call, context, env, hasObserver, resourceOf, intercepted, outOfBand, gaps, honest)
            && (Attributable(call, env.execution, intercepted, gaps, outOfBand) ==>
                  AttributionSound(call, context, env, resourceOf, IdsOf(intercepted)) && DeclarationsKept(l4, request, call))
  {
    var gaps := readGaps + observed + effectGaps + outsideGaps + dependencyGaps + writeGaps;
    OnlyOriginOfAll(readGaps, observed, effectGaps, outsideGaps, dependencyGaps, writeGaps);
    if hasObserver && WellObserved(call, context, env) { BothCaptured(call, context, env); }
    if outside == [] {
      assert sources + outsideSources == sources;
      assert Stages(l0, l1, l2, l3, l4, request, call, env, |changes|, intercepted, sources, readGaps, effectGaps, reason, honest, since) by {
        hide Settles, OnlyChanges, DependencyPairs, Uncaused, ReadKept;
      }
    }
    hide OnlyOrigin, WellObserved, NoCaptureGaps, Stages, Settles, Measured, Uncaused, DependencyPairs, OnlyChanges, ReadKept, WriteFits, SameResources, Analyzed,
      AttributionSound, DeclarationsKept, Effects.IsDiff, ResourcesOf, ChangedResources;
    MeasuredByStages(l0, l1, l2, l3, l4, request, call, context, env, hasObserver, resourceOf, changes, outside, intercepted, sources, outOfBand,
                     readGaps, observed, effectGaps, outsideGaps, reason, gaps, honest, since);
    if Attributable(call, env.execution, intercepted, gaps, outOfBand) {
      assert hasObserver by { SomeChange(env.execution.reported, intercepted, changes, resourceOf); }
      DeclarationsHold(l1, l4, |l0|, request, call, context, intercepted);
      AttributionHolds(call, context, env, resourceOf, changes, intercepted);
    }
  }

  lemma SomeChange(reported: seq<string>, intercepted: seq<Intercepted>, changes: seq<Effects.Change>, resourceOf: string -> string)
    requires SameResources(reported, ResourcesOf(intercepted)) && ResourcesOf(intercepted) == ChangedResources(changes, resourceOf)
    ensures changes != []
  {
    SomeResource(reported, intercepted);
    assert |changes| == |intercepted|;
  }

  /** The dependent write at `w` is caused by an effect that an earlier completion lists; with a target bound, by an attributed one. */
  ghost predicate DependentWriteSound(log: seq<Event>, from: nat, w: nat, context: Context, env: Environment)
    requires w < |log|
  {
    exists c :: from <= c < w && log[c].kind.Completed? && log[w].cause.Some? && log[w].cause.value in log[c].kind.effects
                && (context.hasTarget ==> env.proofPrerequisites && log[w].cause.value in log[c].kind.attributed)
                && (!context.hasTarget ==> context.hasTask)
  }

  /** No dependent write is declared, or it names an intercepted resource and a dependency on record, under a task. */
  predicate WriteFits(log: seq<Event>, call: Call, context: Context, intercepted: seq<Intercepted>) {
    call.dependentWrite.Some? ==>
      && FindIntercepted(intercepted, call.dependentWrite.value.resource).Some?
      && context.hasTask && HasDependency(log, call.dependentWrite.value)
  }

  function WithoutOrigin(gaps: seq<Gap>): (rest: seq<Gap>)
    ensures OnlyOrigin(gaps) <==> rest == []
  {
    if gaps == [] then []
    else
      var rest := WithoutOrigin(gaps[1..]);
      assert OnlyOrigin(gaps) <==> gaps[0].SnapshotOrigin? && OnlyOrigin(gaps[1..]) by {
        assert gaps == [gaps[0]] + gaps[1..];
        OnlyOriginOfBoth([gaps[0]], gaps[1..]);
      }
      if gaps[0].SnapshotOrigin? then rest else [gaps[0]] + rest
  }

  lemma CausedByEvent(log: seq<Event>, id: Id, caller: Option<Id>)
    requires HasId(log, id)
    ensures Caused(log, Some(id), caller)
  {
  }

  lemma DeclarationsHold(log: seq<Event>, after: seq<Event>, from: nat, request: Id, call: Call, context: Context, intercepted: seq<Intercepted>)
    requires log <= after && ReadKept(log, from, request, call) && WriteFits(after, call, context, intercepted)
    ensures DeclarationsKept(after, request, call)
    ensures call.dependentWrite.Some? ==> context.hasTask && FindIntercepted(intercepted, call.dependentWrite.value.resource).Some?
  {
    assert forall i :: 0 <= i < |log| ==> after[i] == log[i];
  }

  lemma AttributionHolds(call: Call, context: Context, env: Environment, resourceOf: string -> string, changes: seq<Effects.Change>, intercepted: seq<Intercepted>)
    requires env.execution.outcome.Succeeded? && !call.opaqueCall
    requires env.before.Captured? && env.after.Captured? && !env.after.degraded
    requires env.before.capture.outOfBand == [] && env.after.capture.outOfBand == []
    requires OnlyOrigin(env.before.capture.gaps) && OnlyOrigin(env.after.capture.gaps)
    requires Effects.IsDiff(env.before.capture.files, env.after.capture.files, changes)
    requires ResourcesOf(intercepted) == ChangedResources(changes, resourceOf)
    requires SameResources(env.execution.reported, ResourcesOf(intercepted))
    requires forall i :: 0 <= i < |intercepted| ==> Analyzed(env, intercepted[i].id)
    requires call.dependentWrite.Some? ==> context.hasTask && FindIntercepted(intercepted, call.dependentWrite.value.resource).Some?
    ensures AttributionSound(call, context, env, resourceOf, IdsOf(intercepted))
  {
    ResourceIsReported(call, env, intercepted);
    hide Effects.IsDiff, OnlyOrigin, SameResources, ResourcesOf, ChangedResources, Analyzed;
    assert |IdsOf(intercepted)| == |changes|;
    assert ReportsDifference(env.before.capture.files, env.after.capture.files, env.execution.reported, resourceOf, |changes|);
  }

  lemma ResourceIsReported(call: Call, env: Environment, intercepted: seq<Intercepted>)
    requires SameResources(env.execution.reported, ResourcesOf(intercepted))
    requires call.dependentWrite.Some? ==> FindIntercepted(intercepted, call.dependentWrite.value.resource).Some?
    ensures call.dependentWrite.Some? ==> call.dependentWrite.value.resource in env.execution.reported
  {
    if call.dependentWrite.Some? {
      var resource := call.dependentWrite.value.resource;
      var i :| 0 <= i < |intercepted| && intercepted[i].resource == resource;
      assert ResourcesOf(intercepted)[i] == resource;
    }
  }
}
