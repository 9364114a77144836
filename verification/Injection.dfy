/**
 * Repeat suppression in packages/gateway/src/injection-state.ts: a store of the 32 most recent
 * sessions, against the unbounded record of every claim that was granted.
 */
module Injection {
  import opened Options
  import opened Sets

  const RepeatSuppressionMs: int := 300000

  const MaxSessions: nat := 32

  datatype Record = Record(digest: string, at: int)

  type Store = map<string, Record>

  ghost predicate DistinctTimes(m: Store) {
    forall a, b :: a in m && b in m && m[a].at == m[b].at ==> a == b
  }

  /** The sessions claimed after this one's last claim. */
  function Newer(m: Store, id: string): set<string>
    requires id in m
  {
    set other | other in m && m[other].at > m[id].at
  }

  /** What survives the sort and slice: the sessions with fewer than 32 newer ones. */
  function Recent(m: Store): Store {
    map id | id in m && |Newer(m, id)| < MaxSessions :: m[id]
  }

  predicate Repeats(m: Store, id: string, digest: string, now: int) {
    id in m && m[id].digest == digest && 0 <= now - m[id].at < RepeatSuppressionMs
  }

  // ---- The store object ----

  datatype Entry = Entry(id: string, record: Record)

  class InjectionState {
    var sessions: Store

    constructor ()
      ensures sessions == map[]
    {
      sessions := map[];
    }

    /** `claimInjection` with a readable, writable state file and a digest in place of the context. */
    method ClaimInjection(sessionId: Option<string>, digest: string, now: int) returns (inject: bool)
      modifies this
      ensures sessionId == None || sessionId == Some("") ==> inject && sessions == old(sessions)
      ensures sessionId.Some? && sessionId.value != "" ==>
                inject == !Repeats(old(sessions), sessionId.value, digest, now)
                && (!inject <==> sessionId.value in old(sessions) && old(sessions)[sessionId.value].digest == digest
                                 && old(sessions)[sessionId.value].at <= now < old(sessions)[sessionId.value].at + 300000)
      ensures !inject ==> sessions == old(sessions)
      ensures inject && sessionId.Some? && sessionId.value != "" && DistinctTimes(old(sessions)[sessionId.value := Record(digest, now)]) ==>
                sessions == Recent(old(sessions)[sessionId.value := Record(digest, now)])
    {
      if sessionId.None? || sessionId.value == "" { return true; }
      var id := sessionId.value;
      if id in sessions && sessions[id].digest == digest {
        var elapsed := now - sessions[id].at;
        if 0 <= elapsed < RepeatSuppressionMs { return false; }
      }
      var claimed := sessions[id := Record(digest, now)];
      var ordered := SortByTime(claimed);
      var kept := ordered[..if |ordered| < MaxSessions then |ordered| else MaxSessions];
      sessions := map e | e in kept :: e.id := e.record;
      if DistinctTimes(claimed) { KeptIsRecent(claimed, ordered, kept, sessions); }
      return true;
    }
  }

  /** Each session once, most recent first. */
  ghost predicate IsOrdering(m: Store, ordered: seq<Entry>) {
    && (forall i :: 0 <= i < |ordered| ==> ordered[i].id in m && m[ordered[i].id] == ordered[i].record)
    && (forall id :: id in m ==> Entry(id, m[id]) in ordered)
    && (forall i, j :: 0 <= i < j < |ordered| ==> ordered[i].id != ordered[j].id && ordered[i].record.at >= ordered[j].record.at)
  }

  method SortByTime(m: Store) returns (ordered: seq<Entry>)
    ensures IsOrdering(m, ordered)
  {
    ordered := [];
    var rest := m.Keys;
    while rest != {}
      invariant rest <= m.Keys
      invariant forall i :: 0 <= i < |ordered| ==> ordered[i].id in m && ordered[i].id !in rest && m[ordered[i].id] == ordered[i].record
      invariant forall id :: id in m && id !in rest ==> Entry(id, m[id]) in ordered
      invariant forall i, j :: 0 <= i < j < |ordered| ==> ordered[i].id != ordered[j].id && ordered[i].record.at >= ordered[j].record.at
      invariant forall i, id :: 0 <= i < |ordered| && id in rest ==> ordered[i].record.at >= m[id].at
      decreases |rest|
    {
      var id := Latest(m, rest);
      rest := rest - {id};
      ordered := ordered + [Entry(id, m[id])];
    }
  }

  method Latest(m: Store, ids: set<string>) returns (latest: string)
    requires ids != {} && ids <= m.Keys
    ensures latest in ids && forall id :: id in ids ==> m[latest].at >= m[id].at
  {
    latest :| latest in ids;
    var rest := ids - {latest};
    while rest != {}
      invariant rest <= ids && latest in ids
      invariant forall id :: id in ids && id !in rest ==> m[latest].at >= m[id].at
      decreases |rest|
    {
      var id :| id in rest;
      rest := rest - {id};
      if m[id].at > m[latest].at { latest := id; }
    }
  }

  /** In an ordering by distinct times, the newer sessions are those in front. */
  lemma NewerIsPosition(m: Store, ordered: seq<Entry>, i: nat)
    requires DistinctTimes(m) && IsOrdering(m, ordered) && i < |ordered|
    ensures ordered[i].id in m && |Newer(m, ordered[i].id)| == i
  {
    FrontCount(ordered, i);
    FrontIdsAre(ordered, i);
    hide FrontIds, Newer, DistinctTimes, IsOrdering;
    forall id ensures id in Newer(m, ordered[i].id) <==> id in FrontIds(ordered, i) {
      NewerIsInFront(m, ordered, i, id);
    }
    assert Newer(m, ordered[i].id) == FrontIds(ordered, i);
  }

  lemma NewerIsInFront(m: Store, ordered: seq<Entry>, i: nat, id: string)
    requires DistinctTimes(m) && IsOrdering(m, ordered) && i < |ordered|
    ensures id in Newer(m, ordered[i].id) <==> exists k :: 0 <= k < i && ordered[k].id == id
  {
    if id in Newer(m, ordered[i].id) {
      assert Entry(id, m[id]) in ordered;
      var k :| 0 <= k < |ordered| && ordered[k] == Entry(id, m[id]);
      assert k < i;
    }
    if k :| 0 <= k < i && ordered[k].id == id {
      assert m[id].at != m[ordered[i].id].at;
    }
  }

  function FrontIds(ordered: seq<Entry>, n: nat): set<string>
    requires n <= |ordered|
  {
    if n == 0 then {} else FrontIds(ordered, n - 1) + {ordered[n - 1].id}
  }

  lemma {:induction false} FrontIdsAre(ordered: seq<Entry>, n: nat)
    requires n <= |ordered|
    ensures forall k :: 0 <= k < n ==> ordered[k].id in FrontIds(ordered, n)
    ensures forall id :: id in FrontIds(ordered, n) ==> exists k :: 0 <= k < n && ordered[k].id == id
  {
    if n > 0 { FrontIdsAre(ordered, n - 1); }
  }

  lemma {:induction false} FrontCount(ordered: seq<Entry>, n: nat)
    requires n <= |ordered| && forall i, j :: 0 <= i < j < |ordered| ==> ordered[i].id != ordered[j].id
    ensures |FrontIds(ordered, n)| == n
  {
    if n > 0 {
      FrontCount(ordered, n - 1);
      FrontIdsAre(ordered, n - 1);
      assert ordered[n - 1].id !in FrontIds(ordered, n - 1);
    }
  }

  lemma KeptIsRecent(m: Store, ordered: seq<Entry>, kept: seq<Entry>, sessions: Store)
    requires DistinctTimes(m) && IsOrdering(m, ordered)
    requires kept == ordered[..if |ordered| < MaxSessions then |ordered| else MaxSessions]
    requires forall id :: id in sessions <==> exists e :: e in kept && e.id == id
    requires forall e :: e in kept ==> e.id in sessions && sessions[e.id] == e.record
    ensures sessions == Recent(m)
  {
    forall id ensures id in sessions <==> id in Recent(m)
              ensures id in sessions ==> sessions[id] == m[id]
    {
      if id in m {
        assert Entry(id, m[id]) in ordered;
        var i :| 0 <= i < |ordered| && ordered[i] == Entry(id, m[id]);
        NewerIsPosition(m, ordered, i);
        if i < |kept| { assert kept[i] == ordered[i]; }
      }
    }
  }

  // ---- Runs ----

  datatype Claim = Claim(id: string, digest: string, at: int)

  /** `store` is the bounded file; `claimed` remembers the last granted claim of every session. */
  datatype Memory = Memory(store: Store, claimed: Store)

  /** A claim without a session is granted and leaves no record. */
  function Step(m: Memory, c: Claim): Memory {
    if c.id == "" || Repeats(m.store, c.id, c.digest, c.at) then m
    else
      var record := Record(c.digest, c.at);
      Memory(Recent(m.store[c.id := record]), m.claimed[c.id := record])
  }

  function After(claims: seq<Claim>): Memory {
    if claims == [] then Memory(map[], map[]) else Step(After(claims[..|claims| - 1]), claims[|claims| - 1])
  }

  /** A strictly increasing clock. */
  ghost predicate Ticking(claims: seq<Claim>) {
    forall i, j :: 0 <= i < j < |claims| ==> claims[i].at < claims[j].at
  }

  ghost predicate Agrees(m: Memory) {
    m.store == Recent(m.claimed) && DistinctTimes(m.claimed)
  }

  /** Dropping all but the recent sessions loses none that is newer than a recent one. */
  lemma NewerOfRecent(m: Store, id: string)
    requires id in Recent(m)
    ensures Newer(Recent(m), id) == Newer(m, id)
  {
    forall other | other in Newer(m, id) ensures other in Recent(m) {
      SubsetSize(Newer(m, other), Newer(m, id));
    }
  }

  /** Claiming in the bounded store is claiming in the unbounded one and forgetting afterwards. */
  lemma RecentOfClaim(m: Store, id: string, record: Record)
    requires forall other :: other in m ==> m[other].at < record.at
    ensures Recent(Recent(m)[id := record]) == Recent(m[id := record])
  {
    var bounded, full := Recent(m)[id := record], m[id := record];
    assert Newer(full, id) == {} && Newer(bounded, id) == {};
    forall other | other != id && other in m
      ensures other in Recent(bounded) <==> other in Recent(full)
    {
      RecentAfterClaim(m, id, record, other);
    }
    assert Recent(bounded).Keys == Recent(full).Keys;
  }

  lemma RecentAfterClaim(m: Store, id: string, record: Record, other: string)
    requires forall x :: x in m ==> m[x].at < record.at
    requires other != id && other in m
    ensures other in Recent(Recent(m)[id := record]) <==> other in Recent(m[id := record])
  {
    var bounded, full := Recent(m)[id := record], m[id := record];
    NewerAfterClaim(m, id, record, other);
    if other in Recent(m) {
      NewerOfRecent(m, other);
      NewerAfterClaim(Recent(m), id, record, other);
      assert Newer(bounded, other) == Newer(full, other);
    } else {
      assert Newer(m, other) <= Newer(full, other);
      SubsetSize(Newer(m, other), Newer(full, other));
    }
  }

  lemma NewerAfterClaim(m: Store, id: string, record: Record, other: string)
    requires forall x :: x in m ==> m[x].at < record.at
    requires other != id && other in m
    ensures Newer(m[id := record], other) == Newer(m, other) + {id}
  {
  }

  /** Every time on record is the time of a claim of the run. */
  ghost predicate FromRun(claimed: Store, claims: seq<Claim>) {
    forall id :: id in claimed ==> exists i :: 0 <= i < |claims| && claimed[id].at == claims[i].at
  }

  lemma {:induction false} TimesAreFromRun(claims: seq<Claim>)
    ensures FromRun(After(claims).claimed, claims)
  {
    if claims != [] {
      var front, last := claims[..|claims| - 1], claims[|claims| - 1];
      TimesAreFromRun(front);
      var before, after := After(front).claimed, After(claims).claimed;
      assert after == before || after == before[last.id := Record(last.digest, last.at)];
      hide After;
      forall id | id in after ensures exists i :: 0 <= i < |claims| && after[id].at == claims[i].at {
        if id in before && after[id] == before[id] {
          var i :| 0 <= i < |front| && before[id].at == front[i].at;
          assert claims[i] == front[i];
        } else {
          assert claims[|claims| - 1].at == after[id].at;
        }
      }
    }
  }

  lemma {:induction false} RunAgrees(claims: seq<Claim>)
    requires Ticking(claims)
    ensures Agrees(After(claims))
  {
    if claims == [] {
      assert Recent(map[]) == map[];
    } else {
      var front, last := claims[..|claims| - 1], claims[|claims| - 1];
      RunAgrees(front);
      TimesAreFromRun(front);
      var before := After(front);
      forall id | id in before.claimed ensures before.claimed[id].at < last.at {
        var i :| 0 <= i < |front| && before.claimed[id].at == front[i].at;
        assert claims[i] == front[i];
      }
      RecentOfClaim(before.claimed, last.id, Record(last.digest, last.at));
    }
  }

  /**
   * For every run of a strictly increasing clock the 32-session store refuses a claim exactly when it
   * repeats the session's last granted digest inside the window and at most 31 other sessions were
   * granted a claim since.
   */
  lemma RefusesExactlyRepeats(claims: seq<Claim>, c: Claim)
    requires Ticking(claims + [c])
    ensures var m := After(claims);
            Repeats(m.store, c.id, c.digest, c.at)
            <==> c.id in m.claimed && |Newer(m.claimed, c.id)| <= 31
                 && m.claimed[c.id].digest == c.digest && c.at - m.claimed[c.id].at < RepeatSuppressionMs
  {
    assert forall i :: 0 <= i < |claims| ==> (claims + [c])[i] == claims[i];
    assert (claims + [c])[|claims|] == c;
    assert Ticking(claims);
    RunAgrees(claims);
    TimesAreFromRun(claims);
    if c.id in After(claims).claimed {
      var i :| 0 <= i < |claims| && After(claims).claimed[c.id].at == claims[i].at;
      assert (claims + [c])[i].at < (claims + [c])[|claims|].at;
    }
  }
}
