/**
 * The events and inputs of one intercepted tool call in packages/adapters/src/mcp-proxy.ts, and what
 * the log must hold after the request for the call to be reported without a gap.
 */
module ToolRecords {
  import opened Options
  import Effects

  type Id = nat

  datatype ToolOutcome = Succeeded | Failed | Interrupted

  datatype Kind =
    | Requested
    | FileRead
    | FileChanged(resource: string)
    | SymbolChanged
    | EvidenceDerived
    | DependencyChanged(dependencyId: string, dependent: string)
    | Completed(request: Id, outcome: ToolOutcome, effects: seq<Id>, attributed: seq<Id>)
    | DependentWrite

  datatype Event = Event(id: Id, cause: Option<Id>, kind: Kind)

  // ---- Inputs of one call ----

  datatype DependentWriteRequest = DependentWriteRequest(dependencyId: string, resource: string)

  datatype Call = Call(opaqueCall: bool, observedRead: Option<string>, dependentWrite: Option<DependentWriteRequest>)

  datatype Context = Context(causation: Option<Id>, hasRoot: bool, hasTarget: bool, hasTask: bool)

  /** `SnapshotOrigin` is the one gap that attribution tolerates. */
  datatype Gap = SnapshotOrigin | Gap(scope: string, reason: string)

  datatype Capture = Capture(files: Effects.Files, gaps: seq<Gap>, outOfBand: seq<Effects.Change>)

  datatype Boundary = BoundaryThrew | Captured(capture: Capture, degraded: bool)

  /** A throwing executor counts as a failed or interrupted execution that reports nothing. */
  datatype Execution = Execution(outcome: ToolOutcome, reported: seq<string>)

  /** Source analysis of one changed file: its outcome before anything is appended. */
  datatype Analysis = NotConfigured | Refused(reason: string) | AnalysisThrew | Facts(symbols: nat)

  /** A dependency resolved for the consumer whose changed file is `source`. */
  datatype Resolution = Resolution(source: Id, dependencyId: string, dependent: string)

  /** Everything the transaction learns from outside. */
  datatype Environment = Environment(
    before: Boundary, execution: Execution, after: Boundary,
    analyze: Id -> Analysis, resolve: seq<Id> -> seq<Resolution>, proofPrerequisites: bool)

  datatype Intercepted = Intercepted(id: Id, resource: string)

  ghost predicate OnlyOrigin(gaps: seq<Gap>) {
    forall i :: 0 <= i < |gaps| ==> gaps[i].SnapshotOrigin?
  }

  lemma OnlyOriginOfBoth(gaps: seq<Gap>, more: seq<Gap>)
    ensures OnlyOrigin(gaps + more) <==> OnlyOrigin(gaps) && OnlyOrigin(more)
  {
    if OnlyOrigin(gaps + more) {
      forall i | 0 <= i < |gaps| ensures gaps[i].SnapshotOrigin? { assert gaps[i] == (gaps + more)[i]; }
      forall i | 0 <= i < |more| ensures more[i].SnapshotOrigin? { assert more[i] == (gaps + more)[|gaps| + i]; }
    }
  }

  // ---- The gaps of an observation ----

  /** A boundary that could not be captured, or a gap of its capture. */
  ghost predicate BoundaryGap(boundary: Boundary, scope: string, reason: string, g: Gap) {
    match boundary
    case BoundaryThrew => g == Gap(scope, reason)
    case Captured(capture, _) => g in capture.gaps
  }

  ghost predicate DifferenceGap(before: Effects.Files, after: Effects.Files, opaqueCall: bool, g: Gap) {
    || (opaqueCall && g == Gap("tool.effects", "opaque operation effects are not prospectively enumerable"))
    || exists d :: d in before && d !in after && |Effects.Twins(before, after, d)| > 1 && g == Gap(d, "rename pairing is ambiguous")
  }

  /** The gaps that an observed call leaves before anything is persisted about its effects. */
  ghost predicate ObservationGap(call: Call, context: Context, env: Environment, g: Gap) {
    if !context.hasRoot then g == Gap("workspace", "workspace root was not supplied for observation")
    else
      || BoundaryGap(env.before, "before", "pre-execution observation failed", g)
      || BoundaryGap(env.after, "after", "post-execution observation failed", g)
      || (env.after.Captured? && env.after.degraded
          && g == Gap("observation.window", "incremental observation window requires reconciliation"))
      || if env.before.BoundaryThrew? || env.after.BoundaryThrew?
         then g == Gap("tool.effects", "effect comparison requires both observation boundaries")
         else DifferenceGap(env.before.capture.files, env.after.capture.files, call.opaqueCall, g)
  }

  function OutOfBandOf(boundary: Boundary): seq<Effects.Change> {
    if boundary.Captured? then boundary.capture.outOfBand else []
  }

  function OutsideGap(change: Effects.Change): Gap {
    Gap(change.path, "effect was observed outside the intercepted MCP call")
  }

  /** Every change seen outside the call leaves its gap. */
  ghost predicate OutsideReported(changes: seq<Effects.Change>, gaps: seq<Gap>) {
    forall i :: 0 <= i < |changes| ==> OutsideGap(changes[i]) in gaps
  }

  /** Every gap of the observation but an origin gap is among `gaps`, and so is one for every change outside the call. */
  ghost predicate ObservationReported(call: Call, context: Context, env: Environment, hasObserver: bool, gaps: seq<Gap>) {
    hasObserver ==>
      && (forall g :: ObservationGap(call, context, env, g) && !g.SnapshotOrigin? ==> g in gaps)
      && (context.hasRoot ==> OutsideReported(OutOfBandOf(env.before), gaps) && OutsideReported(OutOfBandOf(env.after), gaps))
  }

  /** A change seen outside the call is on record without a cause, or its loss is a gap. */
  ghost predicate OutsideKept(before: seq<Event>, after: seq<Event>, change: Effects.Change, resourceOf: string -> string, gaps: seq<Gap>) {
    || (exists i :: |before| <= i < |after| && after[i].kind == FileChanged(resourceOf(change.path)) && after[i].cause == None)
    || Gap(change.path, "out-of-band effect persistence failed") in gaps
  }

  lemma OutsideStaysKept(before: seq<Event>, middle: seq<Event>, after: seq<Event>, late: seq<Event>, change: Effects.Change,
                         resourceOf: string -> string, gaps: seq<Gap>, more: seq<Gap>)
    requires before <= middle <= after <= late && OutsideKept(middle, after, change, resourceOf, gaps)
    requires forall g :: g in gaps ==> g in more
    ensures OutsideKept(before, late, change, resourceOf, more)
  {
    if i :| |middle| <= i < |after| && after[i].kind == FileChanged(resourceOf(change.path)) && after[i].cause == None {
      assert late[i] == after[i];
    }
  }

  // ---- Resources ----

  ghost predicate Distinct(xs: seq<string>) {
    forall i, j :: 0 <= i < j < |xs| ==> xs[i] != xs[j]
  }

  /** Both lists are free of duplicates and hold the same, non-empty set of resources. */
  ghost predicate SameResources(reported: seq<string>, observed: seq<string>) {
    reported != [] && Distinct(reported) && Distinct(observed) && forall x :: x in reported <==> x in observed
  }

  function IdsOf(changes: seq<Intercepted>): (ids: seq<Id>)
    ensures |ids| == |changes|
  {
    seq(|changes|, i requires 0 <= i < |changes| => changes[i].id)
  }

  function ResourcesOf(changes: seq<Intercepted>): (resources: seq<string>)
    ensures |resources| == |changes|
  {
    seq(|changes|, i requires 0 <= i < |changes| => changes[i].resource)
  }

  function ChangedResources(changes: seq<Effects.Change>, resourceOf: string -> string): (resources: seq<string>)
    ensures |resources| == |changes| && forall i :: 0 <= i < |changes| ==> resources[i] == resourceOf(changes[i].path)
  {
    seq(|changes|, i requires 0 <= i < |changes| => resourceOf(changes[i].path))
  }

  function FindIntercepted(intercepted: seq<Intercepted>, resource: string): (found: Option<Id>)
    ensures found.Some? ==> exists i :: 0 <= i < |intercepted| && intercepted[i] == Intercepted(found.value, resource)
                                        && forall j :: 0 <= j < i ==> intercepted[j].resource != resource
    ensures found.None? ==> forall i :: 0 <= i < |intercepted| ==> intercepted[i].resource != resource
  {
    if intercepted == [] then None
    else if intercepted[0].resource == resource then Some(intercepted[0].id)
    else
      var rest := FindIntercepted(intercepted[1..], resource);
      assert forall i :: 0 < i < |intercepted| ==> intercepted[i] == intercepted[1..][i - 1];
      assert forall i :: 0 <= i < |intercepted[1..]| ==> intercepted[1..][i] == intercepted[i + 1];
      rest
  }

  predicate HasDependency(log: seq<Event>, write: DependentWriteRequest) {
    exists i :: 0 <= i < |log| && log[i].kind == DependencyChanged(write.dependencyId, write.resource)
  }

  // ---- File changes on record ----

  predicate UnderRequest(e: Event, request: Id) {
    e.kind.FileChanged? && e.cause == Some(request)
  }

  /** The file changes of `request` from place `from` on, in log order. */
  ghost function Intercepts(log: seq<Event>, from: nat, request: Id): (files: seq<Intercepted>)
    decreases |log|
  {
    if |log| <= from then []
    else
      var last := log[|log| - 1];
      Intercepts(log[..|log| - 1], from, request) + if UnderRequest(last, request) then [Intercepted(last.id, last.kind.resource)] else []
  }

  lemma {:induction false} InterceptsSplit(a: seq<Event>, b: seq<Event>, from: nat, request: Id)
    requires from <= |a| && a <= b
    ensures Intercepts(b, from, request) == Intercepts(a, from, request) + Intercepts(b, |a|, request)
    decreases |b|
  {
    if |a| == |b| {
      assert a == b;
    } else {
      InterceptsSplit(a, b[..|b| - 1], from, request);
    }
  }

  lemma {:induction false} InterceptsAre(log: seq<Event>, from: nat, request: Id, x: Intercepted)
    ensures x in Intercepts(log, from, request) <==>
              exists i :: from <= i < |log| && UnderRequest(log[i], request) && x == Intercepted(log[i].id, log[i].kind.resource)
    decreases |log|
  {
    if |log| > from {
      InterceptsAre(log[..|log| - 1], from, request, x);
      assert forall i :: 0 <= i < |log| - 1 ==> log[..|log| - 1][i] == log[i];
    }
  }

  lemma {:induction false} NoIntercepts(log: seq<Event>, from: nat, request: Id)
    requires forall i :: from <= i < |log| ==> !UnderRequest(log[i], request)
    ensures Intercepts(log, from, request) == []
    decreases |log|
  {
    if |log| > from { NoIntercepts(log[..|log| - 1], from, request); }
  }

  lemma OneIntercept(log: seq<Event>, from: nat, request: Id)
    requires from < |log| && UnderRequest(log[from], request)
    requires forall i :: from < i < |log| ==> !UnderRequest(log[i], request)
    ensures Intercepts(log, from, request) == [Intercepted(log[from].id, log[from].kind.resource)]
  {
    InterceptsSplit(log[..from + 1], log, from, request);
    NoIntercepts(log, from + 1, request);
    assert log[..from + 1][..from] == log[..from];
  }

  // ---- Analyses on record ----

  /**
   * What source analysis owes the file change at place `i` is on record: nothing without a
   * configuration, otherwise each symbol found, right behind the file change and before its evidence.
   */
  ghost predicate Recorded(env: Environment, log: seq<Event>, i: nat)
    requires i < |log|
  {
    match env.analyze(log[i].id)
    case NotConfigured => true
    case Facts(n) =>
      && i + 2 * n < |log|
      && forall k :: 0 <= k < n ==>
           && log[i + 1 + 2 * k].kind.SymbolChanged? && log[i + 1 + 2 * k].cause == Some(log[i].id)
           && log[i + 2 + 2 * k].kind.EvidenceDerived? && log[i + 2 + 2 * k].cause == Some(log[i + 1 + 2 * k].id)
    case _ => false
  }

  /** The analysis of the file change at `i` failed, or found symbols of which none is on record. */
  ghost predicate Unrecorded(env: Environment, log: seq<Event>, i: nat)
    requires i < |log|
  {
    match env.analyze(log[i].id)
    case NotConfigured => false
    case Facts(n) => n > 0 && forall j :: i < j < |log| && log[j].kind.SymbolChanged? ==> log[j].cause != Some(log[i].id)
    case _ => true
  }

  lemma RecordedIsNotUnrecorded(env: Environment, log: seq<Event>, i: nat)
    requires i < |log| && Recorded(env, log, i)
    ensures !Unrecorded(env, log, i)
  {
    if env.analyze(log[i].id).Facts? && env.analyze(log[i].id).symbols > 0 {
      assert log[i + 1 + 2 * 0].kind.SymbolChanged?;
    }
  }

  lemma RecordedStays(env: Environment, log: seq<Event>, after: seq<Event>, i: nat)
    requires log <= after && i < |log| && Recorded(env, log, i)
    ensures Recorded(env, after, i)
  {
    assert forall j :: 0 <= j < |log| ==> after[j] == log[j];
  }

  /** Every file change of the request from `from` on is on record with its analysis. */
  ghost predicate AllRecorded(env: Environment, log: seq<Event>, from: nat, request: Id) {
    forall i :: from <= i < |log| && UnderRequest(log[i], request) ==> Recorded(env, log, i)
  }

  ghost predicate SomeUnrecorded(env: Environment, log: seq<Event>, from: nat, request: Id) {
    exists i :: from <= i < |log| && UnderRequest(log[i], request) && Unrecorded(env, log, i)
  }

  /** The new events are file changes, symbols of file changes with ids from `since` on, and evidence. */
  ghost predicate OnlyChanges(before: seq<Event>, after: seq<Event>, since: Id) {
    && before <= after
    && forall i :: |before| <= i < |after| ==>
         || after[i].kind.FileChanged? || after[i].kind.EvidenceDerived?
         || (after[i].kind.SymbolChanged? && after[i].cause.Some? && after[i].cause.value >= since)
  }

  lemma OnlyChangesThrough(a: seq<Event>, b: seq<Event>, c: seq<Event>, since: Id, later: Id)
    requires OnlyChanges(a, b, since) && OnlyChanges(b, c, later) && since <= later
    ensures OnlyChanges(a, c, since)
  {
    assert forall i :: |a| <= i < |b| ==> c[i] == b[i];
  }

  lemma UnrecordedStays(env: Environment, log: seq<Event>, after: seq<Event>, from: nat, request: Id)
    requires log <= after && from <= |log| && SomeUnrecorded(env, log, from, request)
    requires forall i, j :: from <= i < |log| <= j < |after| && after[j].kind.SymbolChanged? ==> after[j].cause != Some(log[i].id)
    ensures SomeUnrecorded(env, after, from, request)
  {
    var i :| from <= i < |log| && UnderRequest(log[i], request) && Unrecorded(env, log, i);
    assert forall j :: 0 <= j < |log| ==> after[j] == log[j];
    assert Unrecorded(env, after, i);
  }

  /** The intercepted changes whose analysis found facts: the consumers dependencies are resolved for. */
  function FactSources(env: Environment, intercepted: seq<Intercepted>): (sources: seq<Id>) {
    if intercepted == [] then []
    else
      var last := intercepted[|intercepted| - 1];
      FactSources(env, intercepted[..|intercepted| - 1]) + if env.analyze(last.id).Facts? then [last.id] else []
  }

  lemma {:induction false} FactSourcesAre(env: Environment, intercepted: seq<Intercepted>, x: Id)
    ensures x in FactSources(env, intercepted) <==> env.analyze(x).Facts? && exists i :: 0 <= i < |intercepted| && intercepted[i].id == x
  {
    if intercepted != [] {
      var shorter := intercepted[..|intercepted| - 1];
      FactSourcesAre(env, shorter, x);
      assert forall i :: 0 <= i < |shorter| ==> shorter[i] == intercepted[i];
    }
  }

  lemma {:induction false} FactSourcesOfBoth(env: Environment, one: seq<Intercepted>, other: seq<Intercepted>)
    ensures FactSources(env, one + other) == FactSources(env, one) + FactSources(env, other)
    decreases |other|
  {
    if other == [] {
      assert one + other == one;
    } else {
      FactSourcesOfBoth(env, one, other[..|other| - 1]);
      assert (one + other)[..|one + other| - 1] == one + other[..|other| - 1];
    }
  }

  // ---- What a stage of the call leaves on record ----

  /**
   * Persisting `n` changes between two logs: a gap stands for a change that is missing or whose
   * analysis is not on record, and without a gap all of them are there in order.
   */
  ghost predicate Settles(env: Environment, before: seq<Event>, after: seq<Event>, request: Id, n: nat,
                          intercepted: seq<Intercepted>, sources: seq<Id>, gaps: seq<Gap>, honest: bool) {
    && (OnlyOrigin(gaps) <==> gaps == []) && |intercepted| <= n && (n == 0 ==> gaps == [])
    && (gaps == [] || honest ==> Intercepts(after, |before|, request) == intercepted)
    && (gaps == [] ==> |intercepted| == n && AllRecorded(env, after, |before|, request) && sources == FactSources(env, intercepted))
    && (honest && gaps != [] ==> |intercepted| < n || SomeUnrecorded(env, after, |before|, request))
  }

  lemma SettlesNone(env: Environment, log: seq<Event>, request: Id, honest: bool)
    ensures Settles(env, log, log, request, 0, [], [], [], honest)
  {
  }

  lemma SettlesByGaps(env: Environment, before: seq<Event>, after: seq<Event>, request: Id, n: nat,
                      intercepted: seq<Intercepted>, sources: seq<Id>, gaps: seq<Gap>, honest: bool)
    requires Settles(env, before, after, request, n, intercepted, sources, gaps, honest)
    ensures OnlyOrigin(gaps) <==> gaps == []
  {
  }

  lemma SettlesThrough(env: Environment, a: seq<Event>, b: seq<Event>, c: seq<Event>, request: Id, n: nat, m: nat,
                       one: seq<Intercepted>, other: seq<Intercepted>, left: seq<Id>, right: seq<Id>,
                       gaps: seq<Gap>, more: seq<Gap>, honest: bool, at: Id)
    requires Settles(env, a, b, request, n, one, left, gaps, honest) && Settles(env, b, c, request, m, other, right, more, honest)
    requires a <= b && OnlyChanges(b, c, at) && forall i :: |a| <= i < |b| ==> b[i].id < at
    ensures Settles(env, a, c, request, n + m, one + other, left + right, gaps + more, honest)
  {
    hide Recorded, Unrecorded, OnlyOrigin;
    OnlyOriginOfBoth(gaps, more);
    InterceptsSplit(b, c, |a|, request);
    InterceptsSplit(a, b, |a|, request);
    assert forall i :: 0 <= i < |b| ==> c[i] == b[i];
    if gaps + more == [] {
      FactSourcesOfBoth(env, one, other);
      assert gaps == [] && more == [];
      forall i | |a| <= i < |c| && UnderRequest(c[i], request) ensures Recorded(env, c, i) {
        if i < |b| { RecordedStays(env, b, c, i); }
      }
    }
    if honest && SomeUnrecorded(env, b, |a|, request) { UnrecordedStays(env, b, c, |a|, request); }
    if honest && SomeUnrecorded(env, c, |b|, request) {
      var i :| |b| <= i < |c| && UnderRequest(c[i], request) && Unrecorded(env, c, i);
      assert SomeUnrecorded(env, c, |a|, request);
    }
  }

  // ---- A call without a gap ----

  /** The declared read is on record under the request. */
  ghost predicate ReadKept(log: seq<Event>, from: nat, request: Id, call: Call) {
    call.observedRead.Some? ==> exists i :: from <= i < |log| && log[i].kind.FileRead? && log[i].cause == Some(request)
  }

  /**
   * Both boundaries were captured around a transparent tool: nothing degraded, no gap but the origin
   * one, nothing out of band, and no deleted file with several created twins.
   */
  ghost predicate WellObserved(call: Call, context: Context, env: Environment) {
    && context.hasRoot && !call.opaqueCall
    && env.before.Captured? && env.after.Captured? && !env.after.degraded
    && OnlyOrigin(env.before.capture.gaps) && OnlyOrigin(env.after.capture.gaps)
    && env.before.capture.outOfBand == [] && env.after.capture.outOfBand == []
    && forall d :: d in env.before.capture.files && d !in env.after.capture.files ==>
         |Effects.Twins(env.before.capture.files, env.after.capture.files, d)| <= 1
  }

  /** Every difference between the snapshots is on record under the request, in order and with its analysis. */
  ghost predicate DifferencesKept(log: seq<Event>, from: nat, request: Id, env: Environment, resourceOf: string -> string)
    requires env.before.Captured? && env.after.Captured?
  {
    && (exists changes :: Effects.IsDiff(env.before.capture.files, env.after.capture.files, changes)
                          && ResourcesOf(Intercepts(log, from, request)) == ChangedResources(changes, resourceOf))
    && AllRecorded(env, log, from, request)
  }

  /** Every dependency resolved for the analyzed changes has its consumer among them and is on record. */
  ghost predicate DependenciesKept(log: seq<Event>, from: nat, sources: seq<Id>, env: Environment) {
    forall r :: r in env.resolve(sources) ==>
                  r.source in sources
                  && exists j :: from <= j < |log| && log[j].kind == DependencyChanged(r.dependencyId, r.dependent) && log[j].cause == Some(r.source)
  }

  /** A declared dependent write names a changed resource and a dependency on record, under a task. */
  ghost predicate WriteKept(log: seq<Event>, from: nat, request: Id, call: Call, context: Context) {
    call.dependentWrite.Some? ==>
      && context.hasTask
      && (exists i :: 0 <= i < |log| && log[i].kind.DependencyChanged? && log[i].kind.dependencyId == call.dependentWrite.value.dependencyId
                      && log[i].kind.dependent == call.dependentWrite.value.resource)
      && (exists i :: from <= i < |log| && UnderRequest(log[i], request) && log[i].kind.resource == call.dependentWrite.value.resource)
  }

  ghost predicate NothingMissing(log: seq<Event>, from: nat, request: Id, call: Call, context: Context, env: Environment,
                                 hasObserver: bool, resourceOf: string -> string) {
    && ReadKept(log, from, request, call)
    && (hasObserver ==> WellObserved(call, context, env) && DifferencesKept(log, from, request, env, resourceOf))
    && DependenciesKept(log, from, FactSources(env, Intercepts(log, from, request)), env)
    && WriteKept(log, from, request, call, context)
  }

  ghost predicate NoCaptureGaps(env: Environment) {
    env.before.Captured? && env.after.Captured? && env.before.capture.gaps == [] && env.after.capture.gaps == []
  }

  /** The captures left no gap at all, or the succeeded call reported exactly the resources it changed. */
  ghost predicate OriginsSettled(log: seq<Event>, from: nat, request: Id, env: Environment) {
    || NoCaptureGaps(env)
    || (env.execution.outcome.Succeeded? && SameResources(env.execution.reported, ResourcesOf(Intercepts(log, from, request))))
  }

  /** The conditions, on the inputs and the events after the request, under which a call leaves no gap. */
  ghost predicate WithoutGap(log: seq<Event>, from: nat, request: Id, call: Call, context: Context, env: Environment,
                             hasObserver: bool, resourceOf: string -> string) {
    && NothingMissing(log, from, request, call, context, env, hasObserver, resourceOf)
    && (hasObserver ==> OriginsSettled(log, from, request, env))
  }

  /** Only completions and dependent writes were added. */
  ghost predicate Closing(log: seq<Event>, after: seq<Event>) {
    log <= after && forall i :: |log| <= i < |after| ==> after[i].kind.Completed? || after[i].kind.DependentWrite?
  }

  /** Completions and dependent writes change nothing about what is on record. */
  lemma ClosingKeeps(log: seq<Event>, after: seq<Event>, from: nat, request: Id, call: Call, context: Context, env: Environment,
                     hasObserver: bool, resourceOf: string -> string)
    requires from <= |log| && Closing(log, after)
    ensures NothingMissing(log, from, request, call, context, env, hasObserver, resourceOf)
            <==> NothingMissing(after, from, request, call, context, env, hasObserver, resourceOf)
    ensures Intercepts(after, from, request) == Intercepts(log, from, request)
    ensures WriteKept(log, from, request, call, context) <==> WriteKept(after, from, request, call, context)
  {
    hide Closing, Intercepts, FactSources, WellObserved, ReadKept, WriteKept, DependenciesKept, AllRecorded, DifferencesKept;
    ClosingKeepsFiles(log, after, from, request, env);
    ClosingKeepsParts(log, after, from, request, call, context, FactSources(env, Intercepts(log, from, request)), env);
    if hasObserver && WellObserved(call, context, env) {
      BothCaptured(call, context, env);
      DifferencesStay(log, after, from, request, env, resourceOf);
    }
  }

  lemma DifferencesStay(log: seq<Event>, after: seq<Event>, from: nat, request: Id, env: Environment, resourceOf: string -> string)
    requires env.before.Captured? && env.after.Captured?
    requires Intercepts(log, from, request) == Intercepts(after, from, request)
    requires AllRecorded(env, log, from, request) <==> AllRecorded(env, after, from, request)
    ensures DifferencesKept(log, from, request, env, resourceOf) <==> DifferencesKept(after, from, request, env, resourceOf)
  {
    hide Intercepts, AllRecorded, Effects.IsDiff, ResourcesOf, ChangedResources;
  }

  lemma ClosingKeepsFiles(log: seq<Event>, after: seq<Event>, from: nat, request: Id, env: Environment)
    requires from <= |log| && Closing(log, after)
    ensures Intercepts(after, from, request) == Intercepts(log, from, request)
    ensures AllRecorded(env, log, from, request) <==> AllRecorded(env, after, from, request)
  {
    hide Intercepts, AllRecorded;
    InterceptsSplit(log, after, from, request);
    NoIntercepts(after, |log|, request);
    RecordsStay(log, after, from, request, env);
  }

  lemma ClosingKeepsParts(log: seq<Event>, after: seq<Event>, from: nat, request: Id, call: Call, context: Context, sources: seq<Id>, env: Environment)
    requires from <= |log| && Closing(log, after)
    ensures ReadKept(log, from, request, call) <==> ReadKept(after, from, request, call)
    ensures WriteKept(log, from, request, call, context) <==> WriteKept(after, from, request, call, context)
    ensures DependenciesKept(log, from, sources, env) <==> DependenciesKept(after, from, sources, env)
  {
    assert forall i :: 0 <= i < |log| ==> after[i] == log[i];
  }

  lemma BothCaptured(call: Call, context: Context, env: Environment)
    requires WellObserved(call, context, env)
    ensures context.hasRoot && env.before.Captured? && env.after.Captured? && !env.after.degraded
    ensures OnlyOrigin(env.before.capture.gaps) && OnlyOrigin(env.after.capture.gaps)
    ensures env.before.capture.outOfBand == [] && env.after.capture.outOfBand == []
  {
  }

  lemma RecordsStay(log: seq<Event>, after: seq<Event>, from: nat, request: Id, env: Environment)
    requires from <= |log| && log <= after
    requires forall i :: |log| <= i < |after| ==>
               !after[i].kind.SymbolChanged? && !after[i].kind.EvidenceDerived? && !UnderRequest(after[i], request)
    ensures AllRecorded(env, log, from, request) <==> AllRecorded(env, after, from, request)
  {
    assert forall i :: 0 <= i < |log| ==> after[i] == log[i];
    if AllRecorded(env, log, from, request) {
      forall i | from <= i < |after| && UnderRequest(after[i], request) ensures Recorded(env, after, i) { RecordedStays(env, log, after, i); }
    }
    if AllRecorded(env, after, from, request) {
      forall i | from <= i < |log| && UnderRequest(log[i], request) ensures Recorded(env, log, i) {
        assert Recorded(env, after, i);
        ShortRecord(env, log, after, i);
      }
    }
  }

  /** A record that is complete in a longer log without new symbols was complete before. */
  lemma ShortRecord(env: Environment, log: seq<Event>, after: seq<Event>, i: nat)
    requires i < |log| && log <= after && Recorded(env, after, i)
    requires forall j :: |log| <= j < |after| ==> !after[j].kind.SymbolChanged? && !after[j].kind.EvidenceDerived?
    ensures Recorded(env, log, i)
  {
    assert forall j :: 0 <= j < |log| ==> after[j] == log[j];
    if env.analyze(log[i].id).Facts? {
      var n := env.analyze(log[i].id).symbols;
      if n > 0 { assert after[i + 2 + 2 * (n - 1)].kind.EvidenceDerived?; }
    }
  }

  /**
   * How the gaps gathered before the completion measure the log: all of them are origin gaps exactly
   * when nothing is missing (a store that throws after persisting may add a gap), and then there is
   * none at all exactly when the captures have none.
   */
  ghost predicate Measured(log: seq<Event>, from: nat, request: Id, call: Call, context: Context, env: Environment, hasObserver: bool,
                           resourceOf: string -> string, intercepted: seq<Intercepted>, outOfBand: seq<Id>, gaps: seq<Gap>, honest: bool) {
    && (OnlyOrigin(gaps) ==>
          && NothingMissing(log, from, request, call, context, env, hasObserver, resourceOf) && outOfBand == []
          && (gaps == [] <==> (hasObserver ==> NoCaptureGaps(env))))
    && (honest && NothingMissing(log, from, request, call, context, env, hasObserver, resourceOf) ==> OnlyOrigin(gaps))
    && (honest || OnlyOrigin(gaps) ==> Intercepts(log, from, request) == intercepted)
  }

  lemma WriteNamesIntercept(log: seq<Event>, from: nat, request: Id, resource: string)
    ensures FindIntercepted(Intercepts(log, from, request), resource).Some?
            <==> exists i :: from <= i < |log| && UnderRequest(log[i], request) && log[i].kind.resource == resource
  {
    var files := Intercepts(log, from, request);
    if FindIntercepted(files, resource).Some? {
      var i :| 0 <= i < |files| && files[i].resource == resource;
      InterceptsAre(log, from, request, files[i]);
    }
    if i :| from <= i < |log| && UnderRequest(log[i], request) && log[i].kind.resource == resource {
      InterceptsAre(log, from, request, Intercepted(log[i].id, resource));
    }
  }
}
