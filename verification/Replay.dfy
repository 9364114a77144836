/**
 * The causal replay order of packages/storage/src/replay.ts: a binary heap of the events whose cause
 * has been replayed, popped in order of event IDs. The order is a function of the event set.
 */
module Replay {
  import opened Options
  import opened Paths
  import opened Causation
  import opened SameSymbol

  // ---- The heap ----

  /** The comparison by event ID does not put `b` first. */
  predicate Le(a: Event, b: Event) {
    !Before(b.eventId, a.eventId)
  }

  lemma LeIsTransitive(a: Event, b: Event, c: Event)
    requires Le(a, b) && Le(b, c)
    ensures Le(a, c)
  {
    BeforeIsTotal(a.eventId, b.eventId);
    BeforeIsTotal(b.eventId, c.eventId);
    if Before(c.eventId, a.eventId) && a.eventId != b.eventId {
      BeforeIsTransitive(c.eventId, a.eventId, b.eventId);
    }
  }

  lemma LeIsTotal(a: Event, b: Event)
    ensures Le(a, a) && (Le(a, b) || Le(b, a))
  {
    BeforeIsTotal(a.eventId, b.eventId);
  }

  function Parent(i: nat): nat
    requires i > 0
  {
    (i - 1) / 2
  }

  /** Position `i` stands in order with its parent. */
  predicate InOrder(v: seq<Event>, i: nat)
    requires 0 < i < |v|
  {
    Le(v[Parent(i)], v[i])
  }

  ghost predicate IsHeap(v: seq<Event>) {
    forall i {:trigger InOrder(v, i)} :: 0 < i < |v| ==> InOrder(v, i)
  }

  /** The children of `i`, if any, are not before `e`. */
  predicate ChildrenAfter(v: seq<Event>, i: nat, e: Event) {
    (i * 2 + 1 < |v| ==> Le(e, v[i * 2 + 1])) && (i * 2 + 2 < |v| ==> Le(e, v[i * 2 + 2]))
  }

  lemma ChildrenAre(i: nat)
    ensures Parent(i * 2 + 1) == i && Parent(i * 2 + 2) == i
    ensures forall j: nat :: 0 < j && Parent(j) == i ==> j == i * 2 + 1 || j == i * 2 + 2
  {
  }

  /** A heap but for `hole` and its parent, whose children are in order with that parent nevertheless. */
  ghost predicate RisingAt(v: seq<Event>, hole: nat) {
    && hole < |v|
    && (forall i {:trigger InOrder(v, i)} :: 0 < i < |v| && i != hole ==> InOrder(v, i))
    && (hole > 0 ==> ChildrenAfter(v, hole, v[Parent(hole)]))
  }

  /** A heap but for `hole` and its children, which are in order with its parent nevertheless. */
  ghost predicate SinkingAt(v: seq<Event>, hole: nat) {
    && hole < |v|
    && (forall i {:trigger InOrder(v, i)} :: 0 < i < |v| && Parent(i) != hole ==> InOrder(v, i))
    && (hole > 0 ==> ChildrenAfter(v, hole, v[Parent(hole)]))
  }

  function Swap(v: seq<Event>, i: nat, j: nat): (w: seq<Event>)
    requires i < |v| && j < |v|
    ensures |w| == |v| && multiset(w) == multiset(v)
  {
    v[i := v[j]][j := v[i]]
  }

  lemma RiseStep(v: seq<Event>, hole: nat)
    requires RisingAt(v, hole) && hole > 0 && !InOrder(v, hole)
    ensures RisingAt(Swap(v, hole, Parent(hole)), Parent(hole))
  {
    var up := Parent(hole);
    var w := Swap(v, hole, up);
    LeIsTotal(v[hole], v[up]);
    ChildrenAre(hole);
    ChildrenAre(up);
    forall i | 0 < i < |w| && i != up ensures InOrder(w, i) {
      if i != hole {
        assert InOrder(v, i);
        if Parent(i) == up { LeIsTransitive(v[hole], v[up], v[i]); }
      }
    }
    if up > 0 {
      assert InOrder(v, up);
      forall i | i < |w| && (i == up * 2 + 1 || i == up * 2 + 2) ensures Le(w[Parent(up)], w[i]) {
        if i != hole {
          assert InOrder(v, i);
          LeIsTransitive(v[Parent(up)], v[up], v[i]);
        }
      }
    }
  }

  /** The lesser child of `hole`, or `hole` itself if none is less. */
  function Smallest(v: seq<Event>, hole: nat): (s: nat)
    requires hole < |v|
    ensures s < |v|
  {
    var left, right := hole * 2 + 1, hole * 2 + 2;
    var s := if left < |v| && Before(v[left].eventId, v[hole].eventId) then left else hole;
    if right < |v| && Before(v[right].eventId, v[s].eventId) then right else s
  }

  lemma SmallestIsLeast(v: seq<Event>, hole: nat)
    requires hole < |v|
    ensures var s := Smallest(v, hole);
            (s == hole || (s > 0 && Parent(s) == hole && Le(v[s], v[hole]))) && ChildrenAfter(v, hole, v[s])
  {
    var left, right := hole * 2 + 1, hole * 2 + 2;
    ChildrenAre(hole);
    if left < |v| {
      LeIsTotal(v[left], v[hole]);
      if right < |v| {
        var first := if Before(v[left].eventId, v[hole].eventId) then left else hole;
        LeIsTotal(v[right], v[first]);
        if Before(v[right].eventId, v[first].eventId) {
          LeIsTotal(v[hole], v[left]);
          LeIsTransitive(v[right], v[first], v[left]);
          LeIsTransitive(v[right], v[first], v[hole]);
        }
      }
    }
  }

  lemma SinkStep(v: seq<Event>, hole: nat)
    requires SinkingAt(v, hole) && Smallest(v, hole) != hole
    ensures SinkingAt(Swap(v, hole, Smallest(v, hole)), Smallest(v, hole))
  {
    SmallestIsLeast(v, hole);
    var s := Smallest(v, hole);
    var w := Swap(v, hole, s);
    ChildrenAre(hole);
    ChildrenAre(s);
    forall i | 0 < i < |w| && Parent(i) != s ensures InOrder(w, i) {
      if Parent(i) != hole { assert InOrder(v, i); }
    }
    forall i | i < |w| && (i == s * 2 + 1 || i == s * 2 + 2) ensures Le(w[Parent(s)], w[i]) {
      assert InOrder(v, i);
    }
  }

  lemma {:induction false} RootIsLeast(v: seq<Event>, i: nat)
    requires IsHeap(v) && i < |v|
    ensures Le(v[0], v[i])
  {
    if i == 0 {
      LeIsTotal(v[0], v[0]);
    } else {
      RootIsLeast(v, Parent(i));
      assert InOrder(v, i);
      LeIsTransitive(v[0], v[Parent(i)], v[i]);
    }
  }

  lemma AllAfterRoot(v: seq<Event>)
    requires IsHeap(v) && v != []
    ensures forall e :: e in v ==> Le(v[0], e)
  {
    forall e | e in v ensures Le(v[0], e) {
      var i :| 0 <= i < |v| && v[i] == e;
      RootIsLeast(v, i);
    }
  }

  /** Taking the root and putting the last value in its place leaves a heap that sinks at the root. */
  lemma LastToRoot(v: seq<Event>)
    requires IsHeap(v) && |v| > 1
    ensures var w := v[..|v| - 1][0 := v[|v| - 1]];
            SinkingAt(w, 0) && multiset(w) == multiset(v) - multiset{v[0]}
  {
    var rest := v[1..|v| - 1];
    var w := v[..|v| - 1][0 := v[|v| - 1]];
    assert v == [v[0]] + rest + [v[|v| - 1]] && w == [v[|v| - 1]] + rest;
    forall i | 0 < i < |w| && Parent(i) != 0 ensures InOrder(w, i) {
      assert InOrder(v, i);
    }
  }

  class MinHeap {
    var values: seq<Event>

    constructor ()
      ensures values == []
    {
      values := [];
    }

    method Push(value: Event)
      requires IsHeap(values)
      modifies this
      ensures IsHeap(values) && multiset(values) == multiset(old(values)) + multiset{value}
    {
      values := values + [value];
      var index: nat := |values| - 1;
      assert forall i :: 0 < i < index ==> (InOrder(values, i) <==> InOrder(old(values), i));
      ChildrenAre(index);
      while index > 0
        invariant RisingAt(values, index) && multiset(values) == multiset(old(values)) + multiset{value}
      {
        var parent := Parent(index);
        if !Before(values[index].eventId, values[parent].eventId) { break; }
        RiseStep(values, index);
        values := Swap(values, index, parent);
        index := parent;
      }
    }

    method Pop() returns (first: Option<Event>)
      requires IsHeap(values)
      modifies this
      ensures IsHeap(values)
      ensures first.None? <==> old(values) == []
      ensures first.None? ==> values == []
      ensures first.Some? ==> first.value in old(values) && multiset(values) == multiset(old(values)) - multiset{first.value}
      ensures first.Some? ==> forall e :: e in old(values) ==> Le(first.value, e)
    {
      if values == [] { return None; }
      first := Some(values[0]);
      AllAfterRoot(values);
      var last := values[|values| - 1];
      values := values[..|values| - 1];
      if values == [] {
        assert old(values) == [last];
        return;
      }
      LastToRoot(old(values));
      values := values[0 := last];
      var index: nat := 0;
      while true
        invariant SinkingAt(values, index) && multiset(values) == multiset(old(values)) - multiset{first.value}
        decreases |values| - index
      {
        var smallest := Smallest(values, index);
        SmallestIsLeast(values, index);
        if smallest == index { return; }
        SinkStep(values, index);
        values := Swap(values, index, smallest);
        index := smallest;
      }
    }
  }

  // ---- The order ----

  ghost predicate NoRepeats(events: seq<Event>) {
    forall i, j :: 0 <= i < j < |events| ==> events[i].eventId != events[j].eventId
  }

  /** The event is not replayed yet, and its cause, if it has one, is. */
  ghost predicate IsReady(all: set<Event>, done: seq<Event>, e: Event) {
    e in all && e !in done && (e.causation == None || exists d :: d in done && e.causation == Some(d.eventId))
  }

  /** Every event replayed was ready when its turn came, and of the ready ones the first by ID. */
  ghost predicate Greedy(all: set<Event>, ordered: seq<Event>) {
    forall k :: 0 <= k < |ordered| ==>
      && IsReady(all, ordered[..k], ordered[k])
      && forall e :: IsReady(all, ordered[..k], e) ==> e == ordered[k] || Before(ordered[k].eventId, e.eventId)
  }

  ghost predicate IsCausalOrder(all: set<Event>, ordered: seq<Event>) {
    Greedy(all, ordered) && Elements(ordered) == all
  }

  /** The chain of the event's causes ends after `k` steps at an event without a cause. */
  ghost predicate EndsAfter(all: set<Event>, e: Event, k: nat)
    decreases k
  {
    if k == 0 then e.causation == None
    else exists p :: p in all && e.causation == Some(p.eventId) && EndsAfter(all, p, k - 1)
  }

  ghost predicate Rooted(all: set<Event>) {
    forall e :: e in all ==> exists k :: EndsAfter(all, e, k)
  }

  ghost predicate MissesCause(all: set<Event>) {
    exists e :: e in all && e.causation.Some? && forall p :: p in all ==> p.eventId != e.causation.value
  }

  lemma DistinctEvents(events: seq<Event>)
    requires NoRepeats(events)
    ensures NoConflict(Elements(events))
  {
  }

  /** In a causal order every event occurs once and after its cause. */
  lemma CausesComeFirst(all: set<Event>, ordered: seq<Event>, i: nat)
    requires IsCausalOrder(all, ordered) && i < |ordered|
    ensures forall j :: 0 <= j < i ==> ordered[j] != ordered[i]
    ensures ordered[i].causation.Some? ==> exists j :: 0 <= j < i && ordered[i].causation == Some(ordered[j].eventId)
  {
    assert IsReady(all, ordered[..i], ordered[i]);
    assert forall j :: 0 <= j < i ==> ordered[j] in ordered[..i];
  }

  /** An event set has one causal order at most. */
  lemma CausalOrderIsUnique(all: set<Event>, one: seq<Event>, other: seq<Event>)
    requires IsCausalOrder(all, one) && IsCausalOrder(all, other)
    ensures one == other
  {
    var n := if |one| < |other| then |one| else |other|;
    PrefixesAgree(all, one, other, n);
    assert one[..|one|] == one && other[..|other|] == other;
    NothingLeft(all, one, other);
    NothingLeft(all, other, one);
  }

  lemma {:induction false} PrefixesAgree(all: set<Event>, one: seq<Event>, other: seq<Event>, n: nat)
    requires Greedy(all, one) && Greedy(all, other) && n <= |one| && n <= |other|
    ensures one[..n] == other[..n]
  {
    if n > 0 {
      PrefixesAgree(all, one, other, n - 1);
      BeforeIsTotal(one[n - 1].eventId, other[n - 1].eventId);
      assert one[..n] == one[..n - 1] + [one[n - 1]] && other[..n] == other[..n - 1] + [other[n - 1]];
    }
  }

  lemma NothingLeft(all: set<Event>, one: seq<Event>, other: seq<Event>)
    requires IsCausalOrder(all, one) && Greedy(all, other)
    ensures |one| < |other| ==> other[..|one|] != one
  {
    if |one| < |other| {
      assert IsReady(all, other[..|one|], other[|one|]);
      assert other[|one|] in Elements(one);
    }
  }

  // ---- Exactly the rooted sets have one ----

  lemma CauseEnds(all: set<Event>, e: Event, p: Event, k: nat)
    requires p in all && e.causation == Some(p.eventId) && EndsAfter(all, p, k)
    ensures EndsAfter(all, e, k + 1)
  {
  }

  lemma {:induction false} OrderedIsRooted(all: set<Event>, ordered: seq<Event>, i: nat)
    requires IsCausalOrder(all, ordered) && i < |ordered|
    ensures exists k :: EndsAfter(all, ordered[i], k)
    decreases i
  {
    CausesComeFirst(all, ordered, i);
    if ordered[i].causation == None {
      assert EndsAfter(all, ordered[i], 0);
    } else {
      hide Greedy, EndsAfter;
      var j :| 0 <= j < i && ordered[i].causation == Some(ordered[j].eventId);
      OrderedIsRooted(all, ordered, j);
      var k :| EndsAfter(all, ordered[j], k);
      assert ordered[j] in Elements(ordered);
      CauseEnds(all, ordered[i], ordered[j], k);
    }
  }

  lemma OrderHasAll(all: set<Event>, ordered: seq<Event>)
    requires IsCausalOrder(all, ordered)
    ensures Elements(ordered) == all
  {
  }

  lemma NotRootedNotOrdered(all: set<Event>)
    ensures !Rooted(all) ==> forall ordered :: !IsCausalOrder(all, ordered)
  {
    if ordered :| IsCausalOrder(all, ordered) {
      forall e | e in all ensures exists k :: EndsAfter(all, e, k) {
        var i :| 0 <= i < |ordered| && ordered[i] == e;
        OrderedIsRooted(all, ordered, i);
      }
    }
  }

  /** When nothing is ready, every event whose chain of causes ends has been replayed. */
  lemma {:induction false} StuckMeansUnrooted(all: set<Event>, done: seq<Event>, e: Event, k: nat)
    requires (forall x :: !IsReady(all, done, x)) && e in all && EndsAfter(all, e, k)
    ensures e in done
    decreases k
  {
    assert !IsReady(all, done, e);
    if k > 0 {
      var p :| p in all && e.causation == Some(p.eventId) && EndsAfter(all, p, k - 1);
      StuckMeansUnrooted(all, done, p, k - 1);
    }
  }

  // ---- The loop ----

  ghost function ReadySet(all: set<Event>, done: seq<Event>): set<Event> {
    set e | e in all && IsReady(all, done, e)
  }

  ghost function CausedBy(all: set<Event>, id: string): set<Event> {
    set e | e in all && e.causation == Some(id)
  }

  /** Replaying a ready event makes exactly the events it causes ready, none of which was ready before. */
  lemma NextReady(all: set<Event>, done: seq<Event>, next: Event)
    requires NoConflict(all) && Greedy(all, done) && IsReady(all, done, next)
    ensures multiset(ReadySet(all, done + [next])) == multiset(ReadySet(all, done)) - multiset{next} + multiset(CausedBy(all, next.eventId))
  {
    DoneIsClosed(all, done);
    forall e | e in CausedBy(all, next.eventId) ensures e !in ReadySet(all, done) && e !in done {
      assert forall d :: d in done && d.eventId == next.eventId ==> d == next;
    }
  }

  lemma DoneIsClosed(all: set<Event>, done: seq<Event>)
    requires Greedy(all, done)
    ensures forall e :: e in done ==> e in all && (e.causation == None || exists d :: d in done && e.causation == Some(d.eventId))
  {
    forall e | e in done ensures e in all && (e.causation == None || exists d :: d in done && e.causation == Some(d.eventId)) {
      var i :| 0 <= i < |done| && done[i] == e;
      assert IsReady(all, done[..i], e);
    }
  }

  lemma GreedyExtends(all: set<Event>, done: seq<Event>, next: Event)
    requires NoConflict(all) && Greedy(all, done) && IsReady(all, done, next)
    requires forall e :: IsReady(all, done, e) ==> Le(next, e)
    ensures Greedy(all, done + [next])
  {
    var more := done + [next];
    forall k | 0 <= k < |more|
      ensures IsReady(all, more[..k], more[k])
      ensures forall e :: IsReady(all, more[..k], e) ==> e == more[k] || Before(more[k].eventId, e.eventId)
    {
      if k < |done| {
        assert more[..k] == done[..k];
      } else {
        assert more[..k] == done;
        forall e | IsReady(all, done, e) ensures e == next || Before(next.eventId, e.eventId) {
          BeforeIsTotal(next.eventId, e.eventId);
        }
      }
    }
  }

  datatype Outcome = Ordered(events: seq<Event>) | DuplicateId | MissingParent | Unresolved

  /** The events by ID, or nothing if an ID repeats. */
  method IndexEvents(events: seq<Event>) returns (byId: Option<map<string, Event>>)
    ensures byId.None? <==> !NoRepeats(events)
    ensures byId.Some? ==> NoConflict(Elements(events)) && byId.value == ById(Elements(events))
  {
    var eventsById: map<string, Event> := map[];
    for i := 0 to |events|
      invariant NoRepeats(events[..i])
      invariant forall id :: id in eventsById ==> eventsById[id] in events[..i] && eventsById[id].eventId == id
      invariant forall k :: 0 <= k < i ==> events[k].eventId in eventsById && eventsById[events[k].eventId] == events[k]
    {
      if events[i].eventId in eventsById { return None; }
      eventsById := eventsById[events[i].eventId := events[i]];
    }
    DistinctEvents(events);
    return Some(eventsById);
  }

  /** The events without a cause, heaped, and the others by their cause. */
  method Distribute(events: seq<Event>) returns (ready: MinHeap, childrenByParent: map<string, seq<Event>>)
    requires NoRepeats(events)
    ensures fresh(ready) && IsHeap(ready.values)
    ensures multiset(ready.values) == multiset(ReadySet(Elements(events), []))
    ensures forall id :: multiset(At(childrenByParent, id)) == multiset(CausedBy(Elements(events), id))
  {
    ready := new MinHeap();
    childrenByParent := map[];
    for i := 0 to |events|
      invariant fresh(ready) && IsHeap(ready.values)
      invariant multiset(ready.values) == multiset(ReadySet(Elements(events[..i]), []))
      invariant forall id :: multiset(At(childrenByParent, id)) == multiset(CausedBy(Elements(events[..i]), id))
    {
      OneMore(events, i);
      if events[i].causation == None {
        ready.Push(events[i]);
      } else {
        var cause := events[i].causation.value;
        childrenByParent := childrenByParent[cause := At(childrenByParent, cause) + [events[i]]];
      }
    }
    assert events[..|events|] == events;
  }

  lemma OneMore(events: seq<Event>, i: nat)
    requires NoRepeats(events) && i < |events|
    ensures var before, after, e := Elements(events[..i]), Elements(events[..i + 1]), events[i];
            && ReadySet(after, []) == ReadySet(before, []) + (if e.causation == None then {e} else {})
            && multiset(ReadySet(after, [])) == multiset(ReadySet(before, [])) + (if e.causation == None then multiset{e} else multiset{})
            && forall id :: multiset(CausedBy(after, id)) == multiset(CausedBy(before, id)) + (if e.causation == Some(id) then multiset{e} else multiset{})
  {
    var before, after, e := Elements(events[..i]), Elements(events[..i + 1]), events[i];
    assert after == before + {e};
    assert e !in before;
    forall id ensures CausedBy(after, id) == CausedBy(before, id) + (if e.causation == Some(id) then {e} else {}) { }
  }

  /**
   * `causalOrder`: fails exactly on a repeated ID, on an absent cause, and on a chain of causes that
   * never ends; otherwise the list is the causal order of the event set.
   */
  method CausalOrder(events: seq<Event>) returns (outcome: Outcome)
    ensures outcome.DuplicateId? <==> !NoRepeats(events)
    ensures outcome.MissingParent? <==> NoRepeats(events) && MissesCause(Elements(events))
    ensures outcome.Ordered? <==> NoRepeats(events) && Rooted(Elements(events))
    ensures outcome.Ordered? ==> IsCausalOrder(Elements(events), outcome.events)
  {
    var byId := IndexEvents(events);
    if byId.None? { return DuplicateId; }
    ghost var all := Elements(events);
    var pending := byId.value;
    var ready, childrenByParent := Distribute(events);
    var ordered: seq<Event> := [];
    assert PendingIs(all, ordered, pending) && Greedy(all, ordered) by { assert forall e :: e in all ==> e in events; }
    hide IsHeap, Le, Greedy, PendingIs, ReadySet, IsReady, NoRepeats, NoConflict, Rooted, MissesCause, CausedBy, IsCausalOrder, At;
    while pending != map[]
      invariant fresh(ready) && IsHeap(ready.values) && Greedy(all, ordered)
      invariant multiset(ready.values) == multiset(ReadySet(all, ordered))
      invariant PendingIs(all, ordered, pending)
      decreases pending.Keys
    {
      HeapIsReady(all, ordered, ready.values);
      var next := ready.Pop();
      if next.None? {
        StuckOutcome(all, ordered, pending);
        return if exists id :: id in pending && pending[id].causation.Some? && pending[id].causation.value !in byId.value
               then MissingParent else Unresolved;
      }
      var event := next.value;
      NextPending(all, ordered, pending, event);
      pending := pending - {event.eventId};
      NextReady(all, ordered, event);
      GreedyExtends(all, ordered, event);
      PushAll(ready, At(childrenByParent, event.eventId));
      ordered := ordered + [event];
    }
    AllReplayed(all, ordered, pending);
    return Ordered(ordered);
  }

  method PushAll(ready: MinHeap, children: seq<Event>)
    requires IsHeap(ready.values)
    modifies ready
    ensures IsHeap(ready.values) && multiset(ready.values) == multiset(old(ready.values)) + multiset(children)
  {
    hide IsHeap;
    for k := 0 to |children|
      invariant IsHeap(ready.values) && multiset(ready.values) == multiset(old(ready.values)) + multiset(children[..k])
    {
      assert children[..k + 1] == children[..k] + [children[k]];
      ready.Push(children[k]);
    }
    assert children[..|children|] == children;
  }

  /** `pending` holds exactly the events not replayed yet, by ID. */
  ghost predicate PendingIs(all: set<Event>, ordered: seq<Event>, pending: map<string, Event>) {
    && (forall e :: e in all && e !in ordered ==> e.eventId in pending)
    && (forall id :: id in pending ==> pending[id] in all && pending[id] !in ordered && pending[id].eventId == id)
  }

  lemma NextPending(all: set<Event>, ordered: seq<Event>, pending: map<string, Event>, next: Event)
    requires NoConflict(all) && PendingIs(all, ordered, pending) && IsReady(all, ordered, next)
    ensures next.eventId in pending && PendingIs(all, ordered + [next], pending - {next.eventId})
  {
  }

  lemma HeapIsReady(all: set<Event>, ordered: seq<Event>, heap: seq<Event>)
    requires multiset(heap) == multiset(ReadySet(all, ordered))
    ensures forall e :: e in heap <==> IsReady(all, ordered, e)
    ensures heap == [] <==> ReadySet(all, ordered) == {}
  {
    assert heap == [] <==> |multiset(heap)| == 0;
    assert |multiset(ReadySet(all, ordered))| == |ReadySet(all, ordered)|;
    forall e ensures e in heap <==> IsReady(all, ordered, e) {
      assert e in heap <==> e in multiset(heap);
    }
  }

  lemma AllReplayed(all: set<Event>, ordered: seq<Event>, pending: map<string, Event>)
    requires Greedy(all, ordered) && PendingIs(all, ordered, pending) && pending == map[]
    ensures IsCausalOrder(all, ordered) && Rooted(all) && !MissesCause(all)
  {
    DoneIsClosed(all, ordered);
    assert IsCausalOrder(all, ordered);
    NotRootedNotOrdered(all);
  }

  lemma StuckOutcome(all: set<Event>, ordered: seq<Event>, pending: map<string, Event>)
    requires NoConflict(all) && Greedy(all, ordered) && PendingIs(all, ordered, pending) && pending != map[]
    requires ReadySet(all, ordered) == {}
    ensures !Rooted(all)
    ensures MissesCause(all) <==> exists id :: id in pending && pending[id].causation.Some? && pending[id].causation.value !in ById(all)
  {
    DoneIsClosed(all, ordered);
    var id :| id in pending;
    assert forall x :: IsReady(all, ordered, x) ==> x in ReadySet(all, ordered);
    if k :| EndsAfter(all, pending[id], k) { StuckMeansUnrooted(all, ordered, pending[id], k); }
    if MissesCause(all) {
      var e :| e in all && e.causation.Some? && forall p :: p in all ==> p.eventId != e.causation.value;
      assert e !in ordered;
      assert e.eventId in pending && pending[e.eventId] == e;
    }
  }
}
