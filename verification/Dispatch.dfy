/**
 * Host dispatch in packages/adapters/src/patchmesh-site-mcp-gateway.ts: the promise chain of
 * `runExclusive` and the reservation of source sequences, as a state machine over its awaits.
 */
module Dispatch {
  datatype Source = Source(kind: string, sourceId: string, instanceId: string)

  function KeyOf(source: Source): string {
    source.kind + ":" + source.sourceId + ":" + source.instanceId
  }

  datatype Stage =
    | Waiting
    | Entered
    | Reserved(request: nat)
    | Requested(request: nat)
    | Completed(request: nat)
    | Released

  /** One call of `dispatch`: it awaits `previous` and settles `own`; `reserved` remembers its first number. */
  datatype Call = Call(source: Source, previous: nat, own: nat, stage: Stage, reserved: seq<nat>)

  datatype Entry = Entry(source: Source, sequence: nat)

  /** `settled[p]` tells whether promise `p` is resolved; `log` holds the sequenced events in append order. */
  datatype Gateway = Gateway(settled: seq<bool>, tail: nat, calls: seq<Call>, next: map<string, nat>, log: seq<Entry>)

  const Initial := Gateway([true], 0, [], map[], [])

  /** `Fail` is a throw: validation, an append that raised (persisted or not), or anything after it. */
  datatype Action =
    | Arrive(source: Source)
    | Enter(n: nat)
    | Reserve(n: nat)
    | AppendRequest(n: nat)
    | AppendCompletion(n: nat)
    | Return(n: nat)
    | Fail(n: nat)

  function NextNumber(next: map<string, nat>, source: Source): nat {
    if KeyOf(source) in next then next[KeyOf(source)] else 0
  }

  predicate Running(call: Call) {
    !call.stage.Waiting? && !call.stage.Released?
  }

  predicate Enabled(g: Gateway, a: Action) {
    match a
    case Arrive(_) => true
    case Enter(n) => n < |g.calls| && g.calls[n].stage.Waiting? && g.calls[n].previous < |g.settled| && g.settled[g.calls[n].previous]
    case Reserve(n) => n < |g.calls| && g.calls[n].stage.Entered?
    case AppendRequest(n) => n < |g.calls| && g.calls[n].stage.Reserved?
    case AppendCompletion(n) => n < |g.calls| && g.calls[n].stage.Requested?
    case Return(n) => n < |g.calls| && g.calls[n].stage.Completed?
    case Fail(n) => n < |g.calls| && Running(g.calls[n])
  }

  function Staged(g: Gateway, n: nat, stage: Stage): Gateway
    requires n < |g.calls|
  {
    g.(calls := g.calls[n := g.calls[n].(stage := stage)])
  }

  function Settle(settled: seq<bool>, p: nat): seq<bool> {
    if p < |settled| then settled[p := true] else settled
  }

  function Next(g: Gateway, a: Action): Gateway
    requires Enabled(g, a)
  {
    match a
    case Arrive(source) =>
      var own := |g.settled|;
      g.(settled := g.settled + [false], tail := own, calls := g.calls + [Call(source, g.tail, own, Waiting, [])])
    case Enter(n) => Staged(g, n, Entered)
    case Reserve(n) =>
      var source, request := g.calls[n].source, NextNumber(g.next, g.calls[n].source);
      g.(next := g.next[KeyOf(source) := request + 2],
         calls := g.calls[n := g.calls[n].(stage := Reserved(request), reserved := [request])])
    case AppendRequest(n) =>
      Staged(g, n, Requested(g.calls[n].stage.request)).(log := g.log + [Entry(g.calls[n].source, g.calls[n].stage.request)])
    case AppendCompletion(n) =>
      Staged(g, n, Completed(g.calls[n].stage.request)).(log := g.log + [Entry(g.calls[n].source, g.calls[n].stage.request + 1)])
    case Return(n) => Staged(g, n, Released).(settled := Settle(g.settled, g.calls[n].own))
    case Fail(n) => Staged(g, n, Released).(settled := Settle(g.settled, g.calls[n].own))
  }

  /** The state a run reaches; an action that is not enabled does not happen. */
  ghost function After(run: seq<Action>): Gateway {
    if run == [] then Initial
    else
      var before, last := After(run[..|run| - 1]), run[|run| - 1];
      if Enabled(before, last) then Next(before, last) else before
  }

  // ---- The lock ----

  /** Promise `n` guards call `n` and promise `n + 1` is settled exactly when call `n` is over. */
  ghost predicate Chained(g: Gateway) {
    && |g.settled| == |g.calls| + 1 && g.tail == |g.calls| && g.settled[0]
    && (forall n :: 0 <= n < |g.calls| ==>
          g.calls[n].previous == n && g.calls[n].own == n + 1 && (g.settled[n + 1] <==> g.calls[n].stage.Released?))
  }

  /** A call is past waiting only if every earlier call is over. */
  ghost predicate InOrder(g: Gateway) {
    forall m, n :: 0 <= m < n < |g.calls| && !g.calls[n].stage.Waiting? ==> g.calls[m].stage.Released?
  }

  lemma StepKeepsChained(g: Gateway, a: Action)
    requires Chained(g) && Enabled(g, a)
    ensures Chained(Next(g, a))
  {
    hide KeyOf, NextNumber;
  }

  lemma StepKeepsOrder(g: Gateway, a: Action)
    requires Chained(g) && InOrder(g) && Enabled(g, a)
    ensures Chained(Next(g, a)) && InOrder(Next(g, a))
  {
    hide KeyOf, NextNumber;
    StepKeepsChained(g, a);
    if a.Enter? {
      assert a.n > 0 ==> g.calls[a.n - 1].stage.Released?;
      forall m | 0 <= m < a.n ensures g.calls[m].stage.Released? {
        assert m < a.n - 1 ==> !g.calls[a.n - 1].stage.Waiting?;
      }
    }
  }

  lemma {:induction false} RunKeepsOrder(run: seq<Action>)
    ensures Chained(After(run)) && InOrder(After(run))
  {
    if run != [] {
      RunKeepsOrder(run[..|run| - 1]);
      var before := After(run[..|run| - 1]);
      if Enabled(before, run[|run| - 1]) { StepKeepsOrder(before, run[|run| - 1]); }
    }
  }

  /** In every reachable state at most one dispatch runs, and calls enter in the order they arrived. */
  lemma MutualExclusion(run: seq<Action>, m: nat, n: nat)
    requires m < n < |After(run).calls| && Running(After(run).calls[n])
    ensures !Running(After(run).calls[m]) && After(run).calls[m].stage.Released?
  {
    RunKeepsOrder(run);
  }

  /** Entering is possible exactly when every earlier call is over: a throw releases its successor. */
  lemma EnterIff(run: seq<Action>, n: nat)
    requires n < |After(run).calls| && After(run).calls[n].stage.Waiting?
    ensures Enabled(After(run), Enter(n)) <==> forall m :: 0 <= m < n ==> After(run).calls[m].stage.Released?
  {
    RunKeepsOrder(run);
    var g := After(run);
    assert n > 0 ==> (g.settled[n - 1 + 1] <==> g.calls[n - 1].stage.Released?);
    assert n > 0 && !g.calls[n - 1].stage.Waiting? ==> forall m :: 0 <= m < n - 1 ==> g.calls[m].stage.Released?;
  }

  function Rank(stage: Stage): nat {
    match stage
    case Waiting => 5
    case Entered => 4
    case Reserved(_) => 3
    case Requested(_) => 2
    case Completed(_) => 1
    case Released => 0
  }

  function Work(calls: seq<Call>): nat {
    if calls == [] then 0 else Rank(calls[0].stage) + Work(calls[1..])
  }

  lemma {:induction false} WorkOfUpdate(calls: seq<Call>, n: nat, call: Call)
    requires n < |calls|
    ensures Work(calls[n := call]) == Work(calls) - Rank(calls[n].stage) + Rank(call.stage)
  {
    var updated := calls[n := call];
    if n == 0 {
      assert updated[1..] == calls[1..];
    } else {
      assert updated[1..] == calls[1..][n - 1 := call];
      WorkOfUpdate(calls[1..], n - 1, call);
    }
  }

  /** Every action but an arrival uses up work, so no schedule runs forever without new calls. */
  lemma StepsUseWork(g: Gateway, a: Action)
    requires Enabled(g, a) && !a.Arrive?
    ensures Work(Next(g, a).calls) < Work(g.calls)
  {
    WorkOfUpdate(g.calls, a.n, Next(g, a).calls[a.n]);
  }

  /** The action a call's stage calls for. */
  function Advance(stage: Stage, n: nat): Action {
    match stage
    case Waiting => Enter(n)
    case Entered => Reserve(n)
    case Reserved(_) => AppendRequest(n)
    case Requested(_) => AppendCompletion(n)
    case Completed(_) => Return(n)
    case Released => Fail(n)
  }

  /** No dispatch is ever stuck behind a failed one: the first call that is not over can always advance. */
  lemma NobodyIsStuck(run: seq<Action>, n: nat)
    requires n < |After(run).calls| && !After(run).calls[n].stage.Released?
    requires forall m :: 0 <= m < n ==> After(run).calls[m].stage.Released?
    ensures Enabled(After(run), Advance(After(run).calls[n].stage, n))
  {
    if After(run).calls[n].stage.Waiting? { EnterIff(run, n); }
  }

  // ---- Source sequences ----

  /** How many of these calls reserved numbers under the key. */
  function Reservations(calls: seq<Call>, key: string): nat {
    if calls == [] then 0
    else Reservations(calls[..|calls| - 1], key)
         + if calls[|calls| - 1].reserved != [] && KeyOf(calls[|calls| - 1].source) == key then 1 else 0
  }

  /** Call `n` holds the pair (2k, 2k + 1), where k earlier calls reserved under its key. */
  ghost predicate PairOf(g: Gateway, n: nat)
    requires n < |g.calls|
  {
    var call := g.calls[n];
    && |call.reserved| <= 1
    && (call.stage.Waiting? || call.stage.Entered? ==> call.reserved == [])
    && (call.stage.Reserved? || call.stage.Requested? || call.stage.Completed? ==> call.reserved == [call.stage.request])
    && (call.reserved != [] ==> call.reserved[0] == 2 * Reservations(g.calls[..n], KeyOf(call.source)))
  }

  ghost predicate Numbered(g: Gateway) {
    && (forall n :: 0 <= n < |g.calls| ==> PairOf(g, n))
    && (forall source: Source :: NextNumber(g.next, source) == 2 * Reservations(g.calls, KeyOf(source)))
  }

  lemma {:induction false} SameReservations(calls: seq<Call>, others: seq<Call>, key: string)
    requires |calls| == |others|
    requires forall n :: 0 <= n < |calls| ==> calls[n].reserved == others[n].reserved && calls[n].source == others[n].source
    ensures Reservations(calls, key) == Reservations(others, key)
  {
    if calls != [] { SameReservations(calls[..|calls| - 1], others[..|others| - 1], key); }
  }

  /** Calls that have not reserved add nothing. */
  lemma {:induction false} UnreservedTail(calls: seq<Call>, n: nat, key: string)
    requires n <= |calls|
    requires forall m :: n <= m < |calls| ==> calls[m].reserved == []
    ensures Reservations(calls, key) == Reservations(calls[..n], key)
  {
    if n < |calls| {
      UnreservedTail(calls[..|calls| - 1], n, key);
      assert calls[..|calls| - 1][..n] == calls[..n];
    } else {
      assert calls[..n] == calls;
    }
  }

  /** A step that reserves nothing keeps the numbering. */
  lemma NumberingUnchanged(g: Gateway, g': Gateway)
    requires Numbered(g) && g'.next == g.next && |g.calls| <= |g'.calls|
    requires forall n :: 0 <= n < |g.calls| ==> g'.calls[n].reserved == g.calls[n].reserved && g'.calls[n].source == g.calls[n].source
    requires forall n :: 0 <= n < |g.calls| ==>
               || g'.calls[n].stage == g.calls[n].stage || g'.calls[n].stage.Released?
               || (g.calls[n].stage.Waiting? && g'.calls[n].stage.Entered?)
               || (g.calls[n].stage.Reserved? && g'.calls[n].stage == Requested(g.calls[n].stage.request))
               || (g.calls[n].stage.Requested? && g'.calls[n].stage == Completed(g.calls[n].stage.request))
    requires forall n :: |g.calls| <= n < |g'.calls| ==> g'.calls[n].reserved == [] && g'.calls[n].stage.Waiting?
    ensures Numbered(g')
  {
    forall n | 0 <= n < |g'.calls| ensures PairOf(g', n) {
      if n < |g.calls| {
        assert PairOf(g, n);
        SameReservations(g.calls[..n], g'.calls[..n], KeyOf(g.calls[n].source));
      }
    }
    forall source: Source ensures NextNumber(g'.next, source) == 2 * Reservations(g'.calls, KeyOf(source)) {
      UnreservedTail(g'.calls, |g.calls|, KeyOf(source));
      SameReservations(g.calls, g'.calls[..|g.calls|], KeyOf(source));
    }
  }

  lemma ReserveKeepsNumbered(g: Gateway, n: nat)
    requires Chained(g) && InOrder(g) && Numbered(g) && Enabled(g, Reserve(n))
    ensures Numbered(Next(g, Reserve(n)))
  {
    var g' := Next(g, Reserve(n));
    var own := KeyOf(g.calls[n].source);
    assert PairOf(g, n);
    forall m | n < m < |g.calls| ensures g.calls[m].reserved == [] {
      assert PairOf(g, m);
    }
    forall source: Source ensures NextNumber(g'.next, source) == 2 * Reservations(g'.calls, KeyOf(source)) {
      ReservationsAt(g.calls, n, KeyOf(source));
      ReservationsAt(g'.calls, n, KeyOf(source));
      assert g'.calls[..n] == g.calls[..n];
      assert NextNumber(g.next, source) == 2 * Reservations(g.calls, KeyOf(source));
    }
    assert g'.calls[n].reserved == [NextNumber(g.next, g.calls[n].source)];
    ReservationsAt(g.calls, n, own);
    forall m | 0 <= m < |g'.calls| ensures PairOf(g', m) {
      assert PairOf(g, m);
      if m <= n { assert g'.calls[..m] == g.calls[..m]; }
    }
  }

  lemma ReservationsAt(calls: seq<Call>, n: nat, key: string)
    requires n < |calls|
    requires forall m :: n < m < |calls| ==> calls[m].reserved == []
    ensures Reservations(calls, key)
            == Reservations(calls[..n], key) + if calls[n].reserved != [] && KeyOf(calls[n].source) == key then 1 else 0
  {
    UnreservedTail(calls, n + 1, key);
    assert calls[..n + 1][..n] == calls[..n];
  }

  lemma StepKeepsNumbered(g: Gateway, a: Action)
    requires Chained(g) && InOrder(g) && Numbered(g) && Enabled(g, a)
    ensures Numbered(Next(g, a))
  {
    if a.Reserve? {
      ReserveKeepsNumbered(g, a.n);
    } else {
      hide Numbered;
      NumberingUnchanged(g, Next(g, a));
    }
  }

  lemma {:induction false} RunKeepsNumbered(run: seq<Action>)
    ensures Numbered(After(run))
  {
    if run != [] {
      var front := run[..|run| - 1];
      RunKeepsNumbered(front);
      RunKeepsOrder(front);
      if Enabled(After(front), run[|run| - 1]) { StepKeepsNumbered(After(front), run[|run| - 1]); }
    } else {
      assert forall source: Source :: Reservations([], KeyOf(source)) == 0;
    }
  }

  lemma {:induction false} ReservationsGrow(calls: seq<Call>, m: nat, n: nat, key: string)
    requires m <= n <= |calls|
    ensures Reservations(calls[..m], key) <= Reservations(calls[..n], key)
  {
    if m < n {
      ReservationsGrow(calls, m, n - 1, key);
      assert calls[..n][..n - 1] == calls[..n - 1];
    }
  }

  lemma NumbersRise(g: Gateway, m: nat, n: nat)
    requires Numbered(g) && m < n < |g.calls| && g.calls[m].reserved != [] && g.calls[n].reserved != []
    requires KeyOf(g.calls[m].source) == KeyOf(g.calls[n].source)
    ensures g.calls[m].reserved[0] + 1 < g.calls[n].reserved[0] && g.calls[m].reserved[0] % 2 == 0
  {
    hide KeyOf, NextNumber;
    var calls, key := g.calls, KeyOf(g.calls[m].source);
    assert PairOf(g, m) && PairOf(g, n);
    ReservationCounted(calls, m, key);
    ReservationsGrow(calls, m + 1, n, key);
  }

  lemma ReservationCounted(calls: seq<Call>, m: nat, key: string)
    requires m < |calls| && calls[m].reserved != [] && KeyOf(calls[m].source) == key
    ensures Reservations(calls[..m + 1], key) == Reservations(calls[..m], key) + 1
  {
    assert calls[..m + 1][..m] == calls[..m];
  }

  /** For every run, two calls of one source key never share a number: the later call's pair lies above. */
  lemma NumbersAreNeverReused(run: seq<Action>, m: nat, n: nat)
    requires m < n < |After(run).calls|
    requires After(run).calls[m].reserved != [] && After(run).calls[n].reserved != []
    requires KeyOf(After(run).calls[m].source) == KeyOf(After(run).calls[n].source)
    ensures After(run).calls[m].reserved[0] + 1 < After(run).calls[n].reserved[0]
    ensures After(run).calls[m].reserved[0] % 2 == 0
  {
    hide After, KeyOf, Numbered;
    RunKeepsNumbered(run);
    NumbersRise(After(run), m, n);
  }

  // ---- Sources and their keys ----

  /** A source whose first two parts hold no separator. */
  predicate Plain(source: Source) {
    ':' !in source.kind && ':' !in source.sourceId
  }

  lemma FirstPartEnds(a: string, x: string)
    requires ':' !in a
    ensures (a + ":" + x)[|a|] == ':' && forall i :: 0 <= i < |a| ==> (a + ":" + x)[i] == a[i] && (a + ":" + x)[i] != ':'
    ensures a == (a + ":" + x)[..|a|] && x == (a + ":" + x)[|a| + 1..]
  {
  }

  lemma FirstPart(a: string, b: string, x: string, y: string)
    requires ':' !in a && ':' !in b && a + ":" + x == b + ":" + y
    ensures a == b && x == y
  {
    FirstPartEnds(a, x);
    FirstPartEnds(b, y);
  }

  /** The key tells plain sources apart: by kind, by source and by instance. */
  lemma KeysTellApart(a: Source, b: Source)
    requires Plain(a) && Plain(b)
    ensures KeyOf(a) == KeyOf(b) <==> a == b
  {
    if KeyOf(a) == KeyOf(b) {
      var restA, restB := a.sourceId + ":" + a.instanceId, b.sourceId + ":" + b.instanceId;
      assert KeyOf(a) == a.kind + ":" + restA && KeyOf(b) == b.kind + ":" + restB;
      FirstPart(a.kind, b.kind, restA, restB);
      FirstPart(a.sourceId, b.sourceId, a.instanceId, b.instanceId);
    }
  }

  /** A separator inside a part lets different sources share a key, and with it a counter. */
  lemma SeparatorsMayCollide(kind: string, middle: string, sourceId: string, instanceId: string)
    ensures var a, b := Source(kind + ":" + middle, sourceId, instanceId), Source(kind, middle + ":" + sourceId, instanceId);
            a != b && KeyOf(a) == KeyOf(b)
  {
    assert |kind + ":" + middle| > |kind|;
    assert (kind + ":" + middle) + ":" + sourceId + ":" + instanceId == kind + ":" + (middle + ":" + sourceId) + ":" + instanceId;
  }

  /** The earlier calls of this very source that reserved numbers. */
  ghost function EarlierOf(calls: seq<Call>, n: nat, source: Source): set<nat>
    requires n <= |calls|
  {
    set m: nat | m < n && calls[m].reserved != [] && calls[m].source == source
  }

  lemma {:induction false} ReservationsAreEarlier(calls: seq<Call>, n: nat, source: Source)
    requires n <= |calls| && Plain(source) && forall m :: 0 <= m < n ==> Plain(calls[m].source)
    ensures Reservations(calls[..n], KeyOf(source)) == |EarlierOf(calls, n, source)|
  {
    if n == 0 {
      assert EarlierOf(calls, 0, source) == {};
    } else {
      ReservationsAreEarlier(calls, n - 1, source);
      KeysTellApart(calls[n - 1].source, source);
      assert calls[..n][..n - 1] == calls[..n - 1];
      var last := calls[n - 1];
      assert EarlierOf(calls, n, source)
             == EarlierOf(calls, n - 1, source) + if last.reserved != [] && last.source == source then {n - 1} else {};
    }
  }

  /**
   * Plain sources number independently from zero: in every run a call that reserved holds the pair of
   * twice the number of earlier calls of its own source that reserved, whatever other sources did.
   */
  lemma SourcesNumberFromZero(run: seq<Action>, n: nat)
    requires n < |After(run).calls| && After(run).calls[n].reserved != []
    requires forall m :: 0 <= m <= n ==> Plain(After(run).calls[m].source)
    ensures After(run).calls[n].reserved == [2 * |EarlierOf(After(run).calls, n, After(run).calls[n].source)|]
  {
    hide After, KeyOf, NextNumber;
    RunKeepsNumbered(run);
    assert PairOf(After(run), n);
    ReservationsAreEarlier(After(run).calls, n, After(run).calls[n].source);
  }

  // ---- The log ----

  /** Sequences of one key strictly increase, and lie below the next number except where a running call still owes them. */
  ghost predicate LogOrdered(g: Gateway) {
    && (forall i, j :: 0 <= i < j < |g.log| && KeyOf(g.log[i].source) == KeyOf(g.log[j].source) ==> g.log[i].sequence < g.log[j].sequence)
    && (forall i :: 0 <= i < |g.log| ==> g.log[i].sequence < NextNumber(g.next, g.log[i].source))
    && (forall n, i :: 0 <= n < |g.calls| && 0 <= i < |g.log| && KeyOf(g.log[i].source) == KeyOf(g.calls[n].source) ==>
          && (g.calls[n].stage.Reserved? ==> g.log[i].sequence < g.calls[n].stage.request)
          && (g.calls[n].stage.Requested? ==> g.log[i].sequence <= g.calls[n].stage.request))
    && (forall n :: 0 <= n < |g.calls| && (g.calls[n].stage.Reserved? || g.calls[n].stage.Requested?) ==>
          g.calls[n].stage.request + 2 <= NextNumber(g.next, g.calls[n].source))
  }

  lemma StepKeepsLogOrdered(g: Gateway, a: Action)
    requires Chained(g) && InOrder(g) && LogOrdered(g) && Enabled(g, a)
    ensures LogOrdered(Next(g, a))
  {
    hide Chained, KeyOf;
    var g' := Next(g, a);
    if !a.Arrive? && !a.Enter? {
      forall m | 0 <= m < |g.calls| && m != a.n ensures !Running(g.calls[m]) && g'.calls[m] == g.calls[m] {
        assert m < a.n ==> g.calls[m].stage.Released?;
      }
    }
  }

  lemma {:induction false} RunKeepsLogOrdered(run: seq<Action>)
    ensures LogOrdered(After(run))
  {
    if run != [] {
      var front := run[..|run| - 1];
      RunKeepsLogOrdered(front);
      RunKeepsOrder(front);
      if Enabled(After(front), run[|run| - 1]) { StepKeepsLogOrdered(After(front), run[|run| - 1]); }
    }
  }

  /** However calls arrive, interleave and fail, each source's sequences strictly increase in append order. */
  lemma LogSequencesIncrease(run: seq<Action>, i: nat, j: nat)
    requires i < j < |After(run).log| && After(run).log[i].source == After(run).log[j].source
    ensures After(run).log[i].sequence < After(run).log[j].sequence
  {
    RunKeepsLogOrdered(run);
  }

  // ---- The gateway object ----

  class DispatchGateway {
    ghost var calls: seq<Call>
    ghost var log: seq<Entry>
    var settled: seq<bool>
    var dispatchTail: nat
    var sourceSequences: map<string, nat>

    ghost function Value(): Gateway
      reads this
    {
      Gateway(settled, dispatchTail, calls, sourceSequences, log)
    }

    constructor ()
      ensures Value() == Initial
    {
      settled, dispatchTail, sourceSequences := [true], 0, map[];
      calls, log := [], [];
    }

    /** The synchronous head of `runExclusive`: take the tail as `previous` and leave a new promise in its place. */
    method Arrive(source: Source) returns (previous: nat, own: nat)
      modifies this
      ensures Value() == Next(old(Value()), Action.Arrive(source))
      ensures previous == old(dispatchTail) && own == dispatchTail == old(|settled|)
    {
      previous := dispatchTail;
      own := |settled|;
      settled := settled + [false];
      dispatchTail := own;
      calls := calls + [Call(source, previous, own, Waiting, [])];
    }

    /** Reads and advances the source's counter in one synchronous stretch. */
    method Reserve(ghost n: nat, source: Source) returns (request: nat, completion: nat)
      requires Enabled(Value(), Action.Reserve(n)) && calls[n].source == source
      modifies this
      ensures Value() == Next(old(Value()), Action.Reserve(n))
      ensures calls[n].stage == Reserved(request) && completion == request + 1
    {
      var key := KeyOf(source);
      request := if key in sourceSequences then sourceSequences[key] else 0;
      completion := request + 1;
      sourceSequences := sourceSequences[key := completion + 1];
      calls := calls[n := calls[n].(stage := Reserved(request), reserved := [request])];
    }

    /** The `finally` of `runExclusive`, whether the operation returned or threw. */
    method Release(ghost n: nat, own: nat, ghost thrown: bool)
      requires Enabled(Value(), if thrown then Fail(n) else Return(n)) && calls[n].own == own
      modifies this
      ensures Value() == Next(old(Value()), if thrown then Fail(n) else Return(n))
    {
      if own < |settled| { settled := settled[own := true]; }
      calls := calls[n := calls[n].(stage := Released)];
    }
  }
}
