/**
 * The task lifetimes of packages/adapters/src/patchmesh-site-mcp-gateway.ts: registration, end and
 * symbol-change recording, and the concurrency proofs derived from their overlap sets.
 */
module Lifecycles {
  import opened Options
  import opened Paths
  import opened Texts
  import opened Causation

  /** What the host declares about a task lifetime; `target` stands for the whole target snapshot. */
  datatype Registration = Registration(
    lifecycleId: string, repositoryId: string, workspaceId: string, worktreeId: string,
    agentId: string, taskId: string, source: string, target: string)

  datatype Lifecycle = Lifecycle(registration: Registration, overlaps: set<string>, symbolChanges: set<string>, active: bool)

  type Registry = map<string, Lifecycle>

  datatype SymbolChange = SymbolChange(
    eventId: string, repositoryId: string, workspaceId: string, worktreeId: string,
    agentId: Option<string>, taskId: Option<string>, resourceId: string)

  /** `effects` are the symbol changes among a completion's effects that carry its correlation. */
  datatype Operation =
    | BeginLifecycle(registration: Registration)
    | EndLifecycle(lifecycleId: string)
    | RecordChanges(lifecycleId: string, effects: set<SymbolChange>)

  /** A completion's context is its lifetime's: a dispatch whose identity does not match the lifetime is rejected. */
  predicate SameContext(c: SymbolChange, r: Registration) {
    && c.repositoryId == r.repositoryId && c.workspaceId == r.workspaceId && c.worktreeId == r.worktreeId
    && c.agentId == Some(r.agentId) && c.taskId == Some(r.taskId)
  }

  /** The effects a completion adds to its lifetime: those of its own context. */
  function Additions(effects: set<SymbolChange>, r: Registration): set<string> {
    set c | c in effects && SameContext(c, r) :: c.eventId
  }

  /** The active lifetimes a new one of this repository overlaps. */
  function Overlapped(m: Registry, repositoryId: string): set<string> {
    set id | id in m && m[id].active && m[id].registration.repositoryId == repositoryId
  }

  function AddOverlap(m: Registry, ids: set<string>, newId: string): Registry {
    map id | id in m :: if id in ids then m[id].(overlaps := m[id].overlaps + {newId}) else m[id]
  }

  /** An operation the gateway rejects leaves the registry as it was. */
  function After(m: Registry, op: Operation): Registry {
    match op
    case BeginLifecycle(r) =>
      if Blank(r.lifecycleId) || r.lifecycleId in m then m
      else
        var overlaps := Overlapped(m, r.repositoryId);
        AddOverlap(m, overlaps, r.lifecycleId)[r.lifecycleId := Lifecycle(r, overlaps, {}, true)]
    case EndLifecycle(id) =>
      if id in m && m[id].active then m[id := m[id].(active := false)] else m
    case RecordChanges(id, effects) =>
      if id in m && m[id].active
      then m[id := m[id].(symbolChanges := m[id].symbolChanges + Additions(effects, m[id].registration))] else m
  }

  function Run(ops: seq<Operation>): Registry {
    if ops == [] then map[] else After(Run(ops[..|ops| - 1]), ops[|ops| - 1])
  }

  predicate Active(m: Registry, id: string) {
    id in m && m[id].active
  }

  /** Some state of the run had both lifetimes active. */
  ghost predicate ActiveTogether(ops: seq<Operation>, a: string, b: string) {
    exists k :: 0 <= k <= |ops| && Active(Run(ops[..k]), a) && Active(Run(ops[..k]), b)
  }

  ghost predicate WellKeyed(m: Registry) {
    forall id :: id in m ==> m[id].registration.lifecycleId == id
  }

  lemma {:induction false} RunIsWellKeyed(ops: seq<Operation>)
    ensures WellKeyed(Run(ops))
  {
    if ops != [] { RunIsWellKeyed(ops[..|ops| - 1]); }
  }

  /** A prefix run's states are states of the whole run. */
  lemma TogetherExtends(ops: seq<Operation>, op: Operation, a: string, b: string)
    ensures ActiveTogether(ops + [op], a, b)
            <==> ActiveTogether(ops, a, b) || (Active(Run(ops + [op]), a) && Active(Run(ops + [op]), b))
  {
    var all := ops + [op];
    forall k | 0 <= k <= |ops| ensures all[..k] == ops[..k] { }
    assert all[..|all|] == all;
    if ActiveTogether(all, a, b) {
      var k :| 0 <= k <= |all| && Active(Run(all[..k]), a) && Active(Run(all[..k]), b);
      if k <= |ops| { assert all[..k] == ops[..k]; }
    }
    if ActiveTogether(ops, a, b) {
      var k :| 0 <= k <= |ops| && Active(Run(ops[..k]), a) && Active(Run(ops[..k]), b);
      assert all[..k] == ops[..k];
    }
  }

  /** `b` is in `a`'s overlap set exactly when they are two lifetimes of one repository that were `together`. */
  ghost predicate Exact(m: Registry, a: string, b: string, together: bool) {
    && (a in m ==>
          (b in m[a].overlaps <==> a != b && b in m && together && m[a].registration.repositoryId == m[b].registration.repositoryId))
    && (together ==> a in m && b in m)
    && (Active(m, a) && Active(m, b) ==> together)
  }

  lemma StepKeepsExact(m: Registry, op: Operation, a: string, b: string, together: bool)
    requires Exact(m, a, b, together)
    ensures Exact(After(m, op), a, b, together || (Active(After(m, op), a) && Active(After(m, op), b)))
  {
    var after := After(m, op);
    if op.BeginLifecycle? && after != m {
      var newId, overlaps := op.registration.lifecycleId, Overlapped(m, op.registration.repositoryId);
      assert newId !in m && after[newId] == Lifecycle(op.registration, overlaps, {}, true);
      forall id | id in m
        ensures after[id] == if id in overlaps then m[id].(overlaps := m[id].overlaps + {newId}) else m[id]
      {
      }
      if a == newId {
        assert b in overlaps <==> Active(m, b) && m[b].registration.repositoryId == op.registration.repositoryId;
      } else if b == newId && a in m {
        assert newId !in m[a].overlaps;
        assert a in overlaps <==> m[a].active && m[a].registration.repositoryId == op.registration.repositoryId;
      }
    }
  }

  lemma {:induction false} RunIsExact(ops: seq<Operation>, a: string, b: string)
    ensures Exact(Run(ops), a, b, ActiveTogether(ops, a, b))
  {
    if ops == [] {
      assert forall k :: 0 <= k <= 0 ==> ops[..k] == [];
    } else {
      var front, op := ops[..|ops| - 1], ops[|ops| - 1];
      assert ops == front + [op];
      RunIsExact(front, a, b);
      TogetherExtends(front, op, a, b);
      StepKeepsExact(Run(front), op, a, b, ActiveTogether(front, a, b));
    }
  }

  /**
   * For every run, a lifetime's overlap set is real interval intersection: it holds `b` exactly when
   * `b` is another lifetime of the same repository and some state had both active.
   */
  lemma OverlapIsIntersection(ops: seq<Operation>, a: string, b: string)
    requires a in Run(ops)
    ensures b in Run(ops)[a].overlaps
            <==> a != b && b in Run(ops) && ActiveTogether(ops, a, b)
                 && Run(ops)[a].registration.repositoryId == Run(ops)[b].registration.repositoryId
  {
    RunIsExact(ops, a, b);
  }

  /** Overlap sets are irreflexive and symmetric. */
  lemma OverlapsAreSymmetric(ops: seq<Operation>, a: string, b: string)
    requires a in Run(ops) && b in Run(ops)
    ensures a !in Run(ops)[a].overlaps
    ensures b in Run(ops)[a].overlaps <==> a in Run(ops)[b].overlaps
  {
    OverlapIsIntersection(ops, a, a);
    OverlapIsIntersection(ops, a, b);
    OverlapIsIntersection(ops, b, a);
    assert ActiveTogether(ops, a, b) <==> ActiveTogether(ops, b, a);
  }

  /** No later operation, recording included, loses an overlap or a recorded change, or revives an ended lifetime. */
  lemma {:induction false} NothingIsLost(ops: seq<Operation>, more: seq<Operation>, id: string)
    requires id in Run(ops)
    ensures id in Run(ops + more)
    ensures Run(ops)[id].overlaps <= Run(ops + more)[id].overlaps
    ensures Run(ops)[id].symbolChanges <= Run(ops + more)[id].symbolChanges
    ensures Run(ops)[id].registration == Run(ops + more)[id].registration
    ensures !Run(ops)[id].active ==> !Run(ops + more)[id].active
  {
    if more == [] {
      assert ops + more == ops;
    } else {
      var front := more[..|more| - 1];
      NothingIsLost(ops, front, id);
      assert (ops + more)[..|ops + more| - 1] == ops + front;
    }
  }

  // ---- The registry object ----

  datatype Rejection = MissingCapability | BlankId | NotCanonical | ConflictingDuplicate | NotActive

  class LifecycleRegistry {
    const authorized: bool
    var lifecycles: Registry

    constructor (authorized: bool)
      ensures lifecycles == map[] && this.authorized == authorized
    {
      this.authorized := authorized;
      lifecycles := map[];
    }

    /** `beginTaskLifecycle`; `canonical` is the verdict of the target snapshot's digest check. */
    method BeginTaskLifecycle(r: Registration, canonical: bool) returns (rejection: Option<Rejection>)
      modifies this`lifecycles
      ensures rejection == None <==>
              authorized && !Blank(r.lifecycleId) && canonical
              && (r.lifecycleId in old(lifecycles) ==>
                    old(lifecycles)[r.lifecycleId].active && old(lifecycles)[r.lifecycleId].registration == r)
      ensures lifecycles == if rejection == None then After(old(lifecycles), BeginLifecycle(r)) else old(lifecycles)
    {
      if !authorized { return Some(MissingCapability); }
      if Blank(r.lifecycleId) { return Some(BlankId); }
      if !canonical { return Some(NotCanonical); }
      if r.lifecycleId in lifecycles {
        var existing := lifecycles[r.lifecycleId];
        return if !existing.active || existing.registration != r then Some(ConflictingDuplicate) else None;
      }
      var overlaps := Overlapped(lifecycles, r.repositoryId);
      var rest := overlaps;
      while rest != {}
        invariant rest <= overlaps && lifecycles.Keys == old(lifecycles).Keys
        invariant forall id :: id in lifecycles ==>
                    lifecycles[id] == if id in overlaps - rest
                                      then old(lifecycles)[id].(overlaps := old(lifecycles)[id].overlaps + {r.lifecycleId})
                                      else old(lifecycles)[id]
        decreases |rest|
      {
        var overlapId :| overlapId in rest;
        rest := rest - {overlapId};
        var other := lifecycles[overlapId];
        lifecycles := lifecycles[overlapId := other.(overlaps := other.overlaps + {r.lifecycleId})];
      }
      assert lifecycles == AddOverlap(old(lifecycles), overlaps, r.lifecycleId);
      lifecycles := lifecycles[r.lifecycleId := Lifecycle(r, overlaps, {}, true)];
      return None;
    }

    method EndTaskLifecycle(lifecycleId: string) returns (rejection: Option<Rejection>)
      modifies this`lifecycles
      ensures rejection == if Active(old(lifecycles), lifecycleId) then None else Some(NotActive)
      ensures lifecycles == After(old(lifecycles), EndLifecycle(lifecycleId))
    {
      if lifecycleId !in lifecycles || !lifecycles[lifecycleId].active { return Some(NotActive); }
      lifecycles := lifecycles[lifecycleId := lifecycles[lifecycleId].(active := false)];
      return None;
    }

    /** `recordLifecycleSymbolChanges`, given the symbol changes linked to the completion. */
    method RecordSymbolChanges(lifecycleId: string, effects: set<SymbolChange>)
      modifies this`lifecycles
      ensures lifecycles == After(old(lifecycles), RecordChanges(lifecycleId, effects))
    {
      if lifecycleId !in lifecycles || !lifecycles[lifecycleId].active { return; }
      var lifecycle := lifecycles[lifecycleId];
      var additions := Additions(effects, lifecycle.registration);
      if additions == {} {
        assert lifecycle.symbolChanges + {} == lifecycle.symbolChanges;
        return;
      }
      lifecycles := lifecycles[lifecycleId := lifecycle.(symbolChanges := lifecycle.symbolChanges + additions)];
    }
  }

  // ---- Concurrency proofs ----

  datatype ConcurrencyProof = ConcurrencyProof(
    firstChange: string, secondChange: string, target: string, firstLifecycle: string, secondLifecycle: string)

  /** The lifetimes, other than the current one, that recorded this change under its own identity. */
  function Owners(m: Registry, current: string, second: SymbolChange): set<string> {
    set id | id in m && id != current
             && Some(m[id].registration.taskId) == second.taskId && Some(m[id].registration.agentId) == second.agentId
             && m[id].registration.worktreeId == second.worktreeId && m[id].registration.workspaceId == second.workspaceId
             && m[id].registration.repositoryId == second.repositoryId && second.eventId in m[id].symbolChanges
  }

  /** A derived-evidence event: the change it is about, and the target snapshot it is bound to. */
  datatype Piece = Piece(change: string, version3: bool, symbolFact: bool, sufficient: bool, snapshot: string)

  /** What the event store holds: its pieces of evidence, every event's cause, and the coverage the walk looks up. */
  datatype Evidence = Evidence(pieces: seq<Piece>, causes: Causes, rows: Lookup)

  /** The filter of the first loop. */
  predicate Counts(p: Piece, snapshot: string) {
    p.version3 && p.symbolFact && p.sufficient && p.snapshot == snapshot
  }

  function PiecesAbout(pieces: seq<Piece>, snapshot: string, change: string): seq<Piece> {
    if pieces == [] then []
    else
      var last := pieces[|pieces| - 1];
      PiecesAbout(pieces[..|pieces| - 1], snapshot, change) + if Counts(last, snapshot) && last.change == change then [last] else []
  }

  function PiecesAt(collected: map<string, seq<Piece>>, change: string): seq<Piece> {
    if change in collected then collected[change] else []
  }

  method CollectEvidence(pieces: seq<Piece>, snapshot: string) returns (collected: map<string, seq<Piece>>)
    ensures forall change :: PiecesAt(collected, change) == PiecesAbout(pieces, snapshot, change)
  {
    collected := map[];
    for i := 0 to |pieces|
      invariant forall change :: PiecesAt(collected, change) == PiecesAbout(pieces[..i], snapshot, change)
    {
      var p := pieces[i];
      assert pieces[..i + 1][..i] == pieces[..i];
      if Counts(p, snapshot) { collected := collected[p.change := PiecesAt(collected, p.change) + [p]]; }
    }
    assert pieces[..|pieces|] == pieces;
  }

  ghost predicate OnePiece(evidence: Evidence, snapshot: string, change: string) {
    |PiecesAbout(evidence.pieces, snapshot, change)| == 1
  }

  /** The places of sufficient V3 evidence of a symbol fact about the change, bound to the snapshot. */
  function Places(pieces: seq<Piece>, snapshot: string, change: string): set<int> {
    set k | 0 <= k < |pieces| && pieces[k] == Piece(change, true, true, true, snapshot)
  }

  lemma {:induction false} PiecesAreCounted(pieces: seq<Piece>, snapshot: string, change: string)
    ensures |PiecesAbout(pieces, snapshot, change)| == |Places(pieces, snapshot, change)|
  {
    if pieces != [] {
      var front, n := pieces[..|pieces| - 1], |pieces| - 1;
      PiecesAreCounted(front, snapshot, change);
      var before, after := Places(front, snapshot, change), Places(pieces, snapshot, change);
      forall k ensures k in after <==> k in before || (k == n && pieces[n] == Piece(change, true, true, true, snapshot)) {
        if 0 <= k < n { assert pieces[k] == front[k]; }
      }
      assert after == before + if pieces[n] == Piece(change, true, true, true, snapshot) then {n} else {};
      assert n !in before;
    } else {
      assert Places(pieces, snapshot, change) == {};
    }
  }

  /** The walk from the change finds coverage. */
  ghost predicate WalkCovers(evidence: Evidence, change: string) {
    CoverageOf(evidence.causes, evidence.rows, change).Some?
  }

  /** The conditions `emitConcurrencyProofs` puts on a pair of changes: those checked first, and then coverage. */
  ghost predicate Provable(m: Registry, current: string, other: string, first: SymbolChange, second: SymbolChange, evidence: Evidence)
    requires current in m && other in m
  {
    Eligible(m, current, other, first, second, evidence) && WalkCovers(evidence, first.eventId)
  }

  ghost predicate Eligible(m: Registry, current: string, other: string, first: SymbolChange, second: SymbolChange, evidence: Evidence)
    requires current in m && other in m
  {
    var target := m[current].registration.target;
    Paired(m, current, other, first, second) && OnePiece(evidence, target, first.eventId) && OnePiece(evidence, target, second.eventId)
  }

  /** The conditions on the changes and their lifetimes. */
  predicate Paired(m: Registry, current: string, other: string, first: SymbolChange, second: SymbolChange)
    requires current in m && other in m
  {
    var mine, theirs := m[current], m[other];
    && first.eventId in mine.symbolChanges && second.eventId != first.eventId
    && second.repositoryId == mine.registration.repositoryId && second.resourceId == first.resourceId
    && Owners(m, current, second) == {other}
    && other in mine.overlaps
    && theirs.registration.target == mine.registration.target
    && second.worktreeId != mine.registration.worktreeId
    && second.agentId != Some(mine.registration.agentId)
    && second.taskId.Some? && second.agentId.Some?
  }

  /** The proof's change pair is ordered; its lifetimes are looked up by task. */
  function ProofOf(mine: Lifecycle, theirs: Lifecycle, first: SymbolChange, second: SymbolChange, firstIsLeft: bool): ConcurrencyProof {
    var left, right := if firstIsLeft then first else second, if firstIsLeft then second else first;
    ConcurrencyProof(left.eventId, right.eventId, mine.registration.target,
                     if left.taskId == Some(mine.registration.taskId) then mine.registration.lifecycleId else theirs.registration.lifecycleId,
                     if right.taskId == Some(mine.registration.taskId) then mine.registration.lifecycleId else theirs.registration.lifecycleId)
  }

  /** Every provable pair rests on lifetimes that really were active together. */
  lemma ProofsRestOnRealOverlap(ops: seq<Operation>, current: string, other: string, first: SymbolChange, second: SymbolChange, evidence: Evidence)
    requires current in Run(ops) && other in Run(ops)
    requires Provable(Run(ops), current, other, first, second, evidence)
    ensures ActiveTogether(ops, current, other) && current != other
    ensures Run(ops)[current].registration.worktreeId != Run(ops)[other].registration.worktreeId
    ensures Run(ops)[current].registration.agentId != Run(ops)[other].registration.agentId
    ensures second.eventId in Run(ops)[other].symbolChanges
  {
    OverlapIsIntersection(ops, current, other);
    assert other in Owners(Run(ops), current, second);
  }

  /**
   * What `parseEvent` and `validateEventSet` ask of the participants of a proof before it is appended:
   * named agents and tasks, distinct agents, tasks, worktrees and lifetimes, one repository, one symbol.
   */
  predicate Validates(mine: Registration, first: SymbolChange, second: SymbolChange, proof: ConcurrencyProof) {
    && first.agentId.Some? && second.agentId.Some? && first.taskId.Some? && second.taskId.Some?
    && first.agentId != second.agentId && first.taskId != second.taskId && first.worktreeId != second.worktreeId
    && first.repositoryId == mine.repositoryId && second.repositoryId == mine.repositoryId
    && first.resourceId == second.resourceId
    && proof.firstLifecycle != proof.secondLifecycle
  }

  /** The pair is provable and its proof passes the validation. */
  ghost predicate Emittable(m: Registry, current: string, other: string, first: SymbolChange, second: SymbolChange, evidence: Evidence)
    requires current in m && other in m
  {
    && Provable(m, current, other, first, second, evidence)
    && Validates(m[current].registration, first, second, ProofOf(m[current], m[other], first, second, Before(first.eventId, second.eventId)))
  }

  /** All recorded effects are events of the store, whose IDs are unique. */
  ghost predicate FromStore(ops: seq<Operation>, changes: seq<SymbolChange>) {
    && (forall a, b :: a in changes && b in changes && a.eventId == b.eventId ==> a == b)
    && (forall op :: op in ops && op.RecordChanges? ==> forall c :: c in op.effects ==> c in changes)
  }

  /** A lifetime holds only changes of its own context. */
  lemma {:induction false} RecordedChangesAreOwn(ops: seq<Operation>, changes: seq<SymbolChange>, id: string, c: SymbolChange)
    requires FromStore(ops, changes) && c in changes && id in Run(ops) && c.eventId in Run(ops)[id].symbolChanges
    ensures SameContext(c, Run(ops)[id].registration)
  {
    if ops != [] {
      var front, op := ops[..|ops| - 1], ops[|ops| - 1];
      var before := Run(front);
      if id in before && c.eventId in before[id].symbolChanges {
        RecordedChangesAreOwn(front, changes, id, c);
      } else {
        assert op in ops && op.RecordChanges? && op.lifecycleId == id;
        var d :| d in op.effects && SameContext(d, before[id].registration) && d.eventId == c.eventId;
      }
    }
  }

  /**
   * Lifetimes are looked up by task, and the validation is what makes that safe: of the provable pairs
   * exactly those of different tasks pass it, so two agents on one task yield no proof.
   */
  lemma EmittableIff(ops: seq<Operation>, changes: seq<SymbolChange>, current: string, other: string,
                     first: SymbolChange, second: SymbolChange, evidence: Evidence)
    requires FromStore(ops, changes) && first in changes && current in Run(ops) && other in Run(ops)
    requires Provable(Run(ops), current, other, first, second, evidence)
    ensures Emittable(Run(ops), current, other, first, second, evidence)
            <==> Run(ops)[current].registration.taskId != Run(ops)[other].registration.taskId
  {
    RecordedChangesAreOwn(ops, changes, current, first);
    ProofsRestOnRealOverlap(ops, current, other, first, second, evidence);
    RunIsWellKeyed(ops);
    assert other in Owners(Run(ops), current, second);
  }

  /**
   * The pair of changes two lifetimes of a run give: each recorded its own and no other lifetime the
   * second, both touch one symbol, the two were active together in one repository and on one target
   * under different agents and worktrees, and each change has exactly one piece of evidence.
   */
  ghost predicate Rivals(ops: seq<Operation>, current: string, other: string, first: SymbolChange, second: SymbolChange, evidence: Evidence) {
    && current in Run(ops) && other in Run(ops) && other != current
    && var mine, theirs := Run(ops)[current], Run(ops)[other];
       && first.eventId in mine.symbolChanges && second.eventId in theirs.symbolChanges && first.eventId != second.eventId
       && (forall x :: x in Run(ops) && x != current && second.eventId in Run(ops)[x].symbolChanges ==> x == other)
       && first.resourceId == second.resourceId && ActiveTogether(ops, current, other)
       && mine.registration.repositoryId == theirs.registration.repositoryId && mine.registration.target == theirs.registration.target
       && mine.registration.agentId != theirs.registration.agentId && mine.registration.worktreeId != theirs.registration.worktreeId
       && |Places(evidence.pieces, mine.registration.target, first.eventId)| == 1
       && |Places(evidence.pieces, mine.registration.target, second.eventId)| == 1
  }

  /** The conditions on a pair are exactly these. */
  lemma EligibleIff(ops: seq<Operation>, changes: seq<SymbolChange>, current: string, other: string,
                    first: SymbolChange, second: SymbolChange, evidence: Evidence)
    requires FromStore(ops, changes) && first in changes && second in changes && current in Run(ops) && other in Run(ops)
    ensures Eligible(Run(ops), current, other, first, second, evidence) <==> Rivals(ops, current, other, first, second, evidence)
  {
    var m := Run(ops);
    PiecesAreCounted(evidence.pieces, m[current].registration.target, first.eventId);
    PiecesAreCounted(evidence.pieces, m[current].registration.target, second.eventId);
    OverlapIsIntersection(ops, current, other);
    forall x | x in m && second.eventId in m[x].symbolChanges ensures SameContext(second, m[x].registration) {
      RecordedChangesAreOwn(ops, changes, x, second);
    }
    forall x ensures x in Owners(m, current, second) <==> x in m && x != current && second.eventId in m[x].symbolChanges { }
    hide PiecesAbout, Places, Owners, ActiveTogether, Run;
    if Paired(m, current, other, first, second) { assert other in Owners(m, current, second); }
    if Rivals(ops, current, other, first, second, evidence) { assert Owners(m, current, second) == {other}; }
  }

  /** Each lifetime is named for its own change. */
  predicate NamesEach(proof: ConcurrencyProof, first: SymbolChange, current: string, second: SymbolChange, other: string) {
    || (proof.firstChange == first.eventId && proof.firstLifecycle == current
        && proof.secondChange == second.eventId && proof.secondLifecycle == other)
    || (proof.firstChange == second.eventId && proof.firstLifecycle == other
        && proof.secondChange == first.eventId && proof.secondLifecycle == current)
  }

  /**
   * In every run, every proof that can be emitted names exactly the current lifetime and another one,
   * each for a change it recorded itself, and these were active together under different tasks, agents
   * and worktrees.
   */
  lemma EmittedProofNamesBoth(ops: seq<Operation>, changes: seq<SymbolChange>, current: string, evidence: Evidence, proof: ConcurrencyProof)
    returns (other: string, first: SymbolChange, second: SymbolChange)
    requires FromStore(ops, changes) && current in Run(ops) && Justified(Run(ops), current, changes, evidence, proof)
    ensures other in Run(ops) && other != current && {proof.firstLifecycle, proof.secondLifecycle} == {current, other}
    ensures first in changes && second in changes && NamesEach(proof, first, current, second, other)
    ensures first.eventId in Run(ops)[current].symbolChanges && SameContext(first, Run(ops)[current].registration)
    ensures second.eventId in Run(ops)[other].symbolChanges && SameContext(second, Run(ops)[other].registration)
    ensures ActiveTogether(ops, current, other)
    ensures var mine, theirs := Run(ops)[current].registration, Run(ops)[other].registration;
            mine.taskId != theirs.taskId && mine.agentId != theirs.agentId && mine.worktreeId != theirs.worktreeId
            && mine.repositoryId == theirs.repositoryId && mine.target == theirs.target
  {
    var m := Run(ops);
    other, first, second :| other in m && first in changes && second in changes && Emittable(m, current, other, first, second, evidence)
                            && proof == ProofOf(m[current], m[other], first, second, Before(first.eventId, second.eventId));
    ProofsRestOnRealOverlap(ops, current, other, first, second, evidence);
    RecordedChangesAreOwn(ops, changes, current, first);
    RecordedChangesAreOwn(ops, changes, other, second);
    EmittableIff(ops, changes, current, other, first, second, evidence);
    RunIsWellKeyed(ops);
    OverlapIsIntersection(ops, current, other);
  }

  type ProofKey = (string, string, string)

  function KeyOf(first: SymbolChange, second: SymbolChange, target: string): ProofKey {
    if Before(first.eventId, second.eventId) then (first.eventId, second.eventId, target)
    else (second.eventId, first.eventId, target)
  }

  function KeyOfProof(proof: ConcurrencyProof): ProofKey {
    (proof.firstChange, proof.secondChange, proof.target)
  }

  /** The proof rests on a provable pair of these changes and passes the validation. */
  ghost predicate Justified(m: Registry, current: string, changes: seq<SymbolChange>, evidence: Evidence, proof: ConcurrencyProof)
    requires current in m
  {
    exists other, first, second ::
      && other in m && first in changes && second in changes && Emittable(m, current, other, first, second, evidence)
      && proof == ProofOf(m[current], m[other], first, second, Before(first.eventId, second.eventId))
  }

  /** What the store does with a valid proof: it may hold it already, take it, or the rest of the event set or the append fails. */
  datatype Emission = AlreadyStored | Taken | NotTaken

  /** The store holds the proof of an eligible pair of these changes already. */
  ghost predicate WasStored(m: Registry, current: string, changes: seq<SymbolChange>, evidence: Evidence, outcome: ProofKey -> Emission, key: ProofKey)
    requires current in m
  {
    exists other, first, second ::
      && other in m && first in changes && second in changes && Eligible(m, current, other, first, second, evidence)
      && key == KeyOf(first, second, m[current].registration.target) && outcome(key).AlreadyStored?
  }

  /**
   * Every proof is justified and was taken by the store, none repeats an emitted pair or another proof's,
   * and the emitted set has grown by exactly them and by pairs the store held already.
   */
  ghost predicate Sound(m: Registry, current: string, changes: seq<SymbolChange>, evidence: Evidence, outcome: ProofKey -> Emission,
                        emitted: set<ProofKey>, proofs: seq<ConcurrencyProof>, emittedNow: set<ProofKey>)
    requires current in m
  {
    && (forall p :: p in proofs ==> Justified(m, current, changes, evidence, p) && KeyOfProof(p) !in emitted && outcome(KeyOfProof(p)).Taken?)
    && (forall i, j :: 0 <= i < j < |proofs| ==> KeyOfProof(proofs[i]) != KeyOfProof(proofs[j]))
    && emitted <= emittedNow && (forall p :: p in proofs ==> KeyOfProof(p) in emittedNow)
    && (forall key :: key in emittedNow ==>
          key in emitted || WasStored(m, current, changes, evidence, outcome, key) || exists p :: p in proofs && KeyOfProof(p) == key)
  }

  /** If the pair is emittable and the store takes its proof, or eligible and stored already, it counts as emitted. */
  ghost predicate Settled(m: Registry, current: string, first: SymbolChange, second: SymbolChange, evidence: Evidence,
                          outcome: ProofKey -> Emission, emitted: set<ProofKey>)
    requires current in m
  {
    var key := KeyOf(first, second, m[current].registration.target);
    forall other :: other in m && Eligible(m, current, other, first, second, evidence)
                    && (outcome(key).AlreadyStored? || (outcome(key).Taken? && Emittable(m, current, other, first, second, evidence)))
                    ==> key in emitted
  }

  /**
   * `emitConcurrencyProofs`: exactly the provable pairs whose proofs pass the validation and are taken, each pair of
   * changes at most once whatever was emitted before; a pair whose append fails stays open.
   */
  method EmitConcurrencyProofs(m: Registry, current: string, changes: seq<SymbolChange>, evidence: Evidence,
                               outcome: ProofKey -> Emission, emitted: set<ProofKey>)
    returns (proofs: seq<ConcurrencyProof>, emittedNow: set<ProofKey>)
    requires current in m
    ensures Sound(m, current, changes, evidence, outcome, emitted, proofs, emittedNow)
    ensures forall first, second :: first in changes && second in changes ==> Settled(m, current, first, second, evidence, outcome, emittedNow)
  {
    hide Emittable, Eligible, Justified, Sound, Settled, WasStored, PiecesAbout, CoverageOf;
    var target := m[current].registration.target;
    var collected := CollectEvidence(evidence.pieces, target);
    proofs, emittedNow := [], emitted;
    assert Sound(m, current, changes, evidence, outcome, emitted, [], emitted) by { NothingEmitted(m, current, changes, evidence, outcome, emitted); }
    for i := 0 to |changes|
      invariant Sound(m, current, changes, evidence, outcome, emitted, proofs, emittedNow)
      invariant forall k, l :: 0 <= k < i && 0 <= l < |changes| ==> Settled(m, current, changes[k], changes[l], evidence, outcome, emittedNow)
    {
      for j := 0 to |changes|
        invariant Sound(m, current, changes, evidence, outcome, emitted, proofs, emittedNow)
        invariant forall k, l :: 0 <= k < i && 0 <= l < |changes| ==> Settled(m, current, changes[k], changes[l], evidence, outcome, emittedNow)
        invariant forall l :: 0 <= l < j ==> Settled(m, current, changes[i], changes[l], evidence, outcome, emittedNow)
      {
        ghost var before := emittedNow;
        var owners := Owners(m, current, changes[j]);
        var other := TheOne(owners);
        var fits := other.Some? && other.value in m && Paired(m, current, other.value, changes[i], changes[j])
                    && |PiecesAt(collected, changes[i].eventId)| == 1 && |PiecesAt(collected, changes[j].eventId)| == 1;
        assert fits <==> other.Some? && other.value in m && Eligible(m, current, other.value, changes[i], changes[j], evidence) by {
          FitsIsEligible(m, current, other, changes[i], changes[j], evidence);
        }
        if fits {
          var key := KeyOf(changes[i], changes[j], target);
          if key !in emittedNow && outcome(key).AlreadyStored? {
            PairIsStored(m, current, other.value, changes, i, j, evidence, outcome);
            SoundMarks(m, current, changes, evidence, outcome, emitted, proofs, emittedNow, key);
            emittedNow := emittedNow + {key};
          } else if key !in emittedNow {
            var found := CoverageFor(evidence.causes, evidence.rows, changes[i].eventId);
            WalkIsUnique(evidence.causes, evidence.rows, changes[i].eventId, found, CoverageOf(evidence.causes, evidence.rows, changes[i].eventId));
            var proof := ProofOf(m[current], m[other.value], changes[i], changes[j], Before(changes[i].eventId, changes[j].eventId));
            IsEmittable(m, current, other.value, changes[i], changes[j], evidence);
            if found.Some? && Validates(m[current].registration, changes[i], changes[j], proof) && outcome(key).Taken? {
              ProofIsJustified(m, current, other.value, changes, i, j, evidence);
              SoundExtends(m, current, changes, evidence, outcome, emitted, proofs, emittedNow, proof);
              proofs, emittedNow := proofs + [proof], emittedNow + {key};
            }
          }
        }
        SettledHere(m, current, changes[i], changes[j], evidence, outcome, emittedNow, other);
        SettledStays(m, current, changes, evidence, outcome, before, emittedNow);
      }
    }
  }

  /** A key names its two changes, in whichever order, and the target. */
  lemma KeyNamesPair(a: SymbolChange, b: SymbolChange, target: string, c: SymbolChange, d: SymbolChange, other: string)
    ensures KeyOf(a, b, target) == KeyOf(c, d, other)
            <==> target == other
                 && ((a.eventId == c.eventId && b.eventId == d.eventId) || (a.eventId == d.eventId && b.eventId == c.eventId))
  {
    BeforeIsTotal(a.eventId, b.eventId);
    BeforeIsTotal(c.eventId, d.eventId);
  }

  lemma KeyOfProofIsKey(mine: Lifecycle, theirs: Lifecycle, first: SymbolChange, second: SymbolChange)
    ensures KeyOfProof(ProofOf(mine, theirs, first, second, Before(first.eventId, second.eventId))) == KeyOf(first, second, mine.registration.target)
  {
  }

  /** The key belongs to rivals among the changes that are to be emitted: their proof is stored, or can be and their tasks differ. */
  ghost predicate Calls(ops: seq<Operation>, changes: seq<SymbolChange>, current: string, evidence: Evidence, key: ProofKey, stored: bool) {
    exists other, first, second ::
      && current in Run(ops) && other in Run(ops) && first in changes && second in changes && Rivals(ops, current, other, first, second, evidence)
      && key == KeyOf(first, second, Run(ops)[current].registration.target)
      && (stored || (WalkCovers(evidence, first.eventId) && Run(ops)[current].registration.taskId != Run(ops)[other].registration.taskId))
  }

  /**
   * In every run, whatever the store holds: a pair of changes counts as emitted afterwards exactly if it
   * did before, or it is a pair of rivals whose proof is stored already, or is taken, the walk from the
   * first change finding coverage and their tasks differing; and a proof is appended exactly for the last.
   */
  lemma EmittedIff(ops: seq<Operation>, changes: seq<SymbolChange>, current: string, evidence: Evidence, outcome: ProofKey -> Emission,
                   emitted: set<ProofKey>, proofs: seq<ConcurrencyProof>, emittedNow: set<ProofKey>, key: ProofKey)
    requires FromStore(ops, changes) && current in Run(ops)
    requires Sound(Run(ops), current, changes, evidence, outcome, emitted, proofs, emittedNow)
    requires forall first, second :: first in changes && second in changes ==>
               Settled(Run(ops), current, first, second, evidence, outcome, emittedNow)
    ensures key in emittedNow <==>
              || key in emitted
              || (outcome(key).AlreadyStored? && Calls(ops, changes, current, evidence, key, true))
              || (outcome(key).Taken? && Calls(ops, changes, current, evidence, key, false))
    ensures (exists p :: p in proofs && KeyOfProof(p) == key) <==>
              key !in emitted && outcome(key).Taken? && Calls(ops, changes, current, evidence, key, false)
  {
    var m := Run(ops);
    hide Eligible, Emittable, Rivals, Calls, WasStored, Justified, Run;
    if WasStored(m, current, changes, evidence, outcome, key) { StoredCalls(ops, changes, current, evidence, outcome, key); }
    forall p | p in proofs ensures Calls(ops, changes, current, evidence, KeyOfProof(p), false) { JustifiedCalls(ops, changes, current, evidence, p); }
    if outcome(key).AlreadyStored? && Calls(ops, changes, current, evidence, key, true) {
      CallsSettle(ops, changes, current, evidence, outcome, emittedNow, key, true);
    }
    if outcome(key).Taken? && Calls(ops, changes, current, evidence, key, false) {
      CallsSettle(ops, changes, current, evidence, outcome, emittedNow, key, false);
      if WasStored(m, current, changes, evidence, outcome, key) { StoredIsStored(m, current, changes, evidence, outcome, key); }
    }
  }

  lemma StoredIsStored(m: Registry, current: string, changes: seq<SymbolChange>, evidence: Evidence, outcome: ProofKey -> Emission, key: ProofKey)
    requires current in m && WasStored(m, current, changes, evidence, outcome, key)
    ensures outcome(key).AlreadyStored?
  {
    hide Eligible;
  }

  lemma StoredCalls(ops: seq<Operation>, changes: seq<SymbolChange>, current: string, evidence: Evidence, outcome: ProofKey -> Emission, key: ProofKey)
    requires FromStore(ops, changes) && current in Run(ops) && WasStored(Run(ops), current, changes, evidence, outcome, key)
    ensures outcome(key).AlreadyStored? && Calls(ops, changes, current, evidence, key, true)
  {
    hide Eligible, Rivals, Run, FromStore;
    var other, first, second :| other in Run(ops) && first in changes && second in changes && Eligible(Run(ops), current, other, first, second, evidence)
                                && key == KeyOf(first, second, Run(ops)[current].registration.target) && outcome(key).AlreadyStored?;
    EligibleIff(ops, changes, current, other, first, second, evidence);
  }

  lemma JustifiedCalls(ops: seq<Operation>, changes: seq<SymbolChange>, current: string, evidence: Evidence, p: ConcurrencyProof)
    requires FromStore(ops, changes) && current in Run(ops) && Justified(Run(ops), current, changes, evidence, p)
    ensures Calls(ops, changes, current, evidence, KeyOfProof(p), false)
  {
    hide Eligible, Rivals, Run, FromStore, Validates;
    var m := Run(ops);
    var other, first, second :| other in m && first in changes && second in changes && Emittable(m, current, other, first, second, evidence)
                                && p == ProofOf(m[current], m[other], first, second, Before(first.eventId, second.eventId));
    EligibleIff(ops, changes, current, other, first, second, evidence);
    EmittableIff(ops, changes, current, other, first, second, evidence);
    KeyOfProofIsKey(m[current], m[other], first, second);
  }

  lemma CallsSettle(ops: seq<Operation>, changes: seq<SymbolChange>, current: string, evidence: Evidence, outcome: ProofKey -> Emission,
                    emittedNow: set<ProofKey>, key: ProofKey, stored: bool)
    requires FromStore(ops, changes) && current in Run(ops) && Calls(ops, changes, current, evidence, key, stored)
    requires if stored then outcome(key).AlreadyStored? else outcome(key).Taken?
    requires forall first, second :: first in changes && second in changes ==>
               Settled(Run(ops), current, first, second, evidence, outcome, emittedNow)
    ensures key in emittedNow
  {
    hide Eligible, Emittable, Rivals, Run, FromStore;
    var other, first, second :| other in Run(ops) && first in changes && second in changes && Rivals(ops, current, other, first, second, evidence)
                                && key == KeyOf(first, second, Run(ops)[current].registration.target)
                                && (stored || (WalkCovers(evidence, first.eventId) && Run(ops)[current].registration.taskId != Run(ops)[other].registration.taskId));
    EligibleIff(ops, changes, current, other, first, second, evidence);
    if !stored { EmittableIff(ops, changes, current, other, first, second, evidence); }
    assert Settled(Run(ops), current, first, second, evidence, outcome, emittedNow);
  }

  lemma FitsIsEligible(m: Registry, current: string, other: Option<string>, first: SymbolChange, second: SymbolChange, evidence: Evidence)
    requires current in m
    ensures other.Some? && other.value in m ==>
              (Eligible(m, current, other.value, first, second, evidence)
               <==> Paired(m, current, other.value, first, second)
                    && |PiecesAbout(evidence.pieces, m[current].registration.target, first.eventId)| == 1
                    && |PiecesAbout(evidence.pieces, m[current].registration.target, second.eventId)| == 1)
  {
    hide Paired;
  }

  lemma IsEmittable(m: Registry, current: string, other: string, first: SymbolChange, second: SymbolChange, evidence: Evidence)
    requires current in m && other in m && Eligible(m, current, other, first, second, evidence)
    ensures Emittable(m, current, other, first, second, evidence)
            <==> WalkCovers(evidence, first.eventId)
                 && Validates(m[current].registration, first, second, ProofOf(m[current], m[other], first, second, Before(first.eventId, second.eventId)))
  {
    hide Eligible;
  }

  lemma PairIsStored(m: Registry, current: string, other: string, changes: seq<SymbolChange>, i: nat, j: nat, evidence: Evidence, outcome: ProofKey -> Emission)
    requires current in m && other in m && i < |changes| && j < |changes| && Eligible(m, current, other, changes[i], changes[j], evidence)
    requires outcome(KeyOf(changes[i], changes[j], m[current].registration.target)).AlreadyStored?
    ensures WasStored(m, current, changes, evidence, outcome, KeyOf(changes[i], changes[j], m[current].registration.target))
  {
    hide Eligible;
    assert changes[i] in changes && changes[j] in changes;
  }

  lemma NothingEmitted(m: Registry, current: string, changes: seq<SymbolChange>, evidence: Evidence, outcome: ProofKey -> Emission, emitted: set<ProofKey>)
    requires current in m
    ensures Sound(m, current, changes, evidence, outcome, emitted, [], emitted)
  {
  }

  lemma SoundMarks(m: Registry, current: string, changes: seq<SymbolChange>, evidence: Evidence, outcome: ProofKey -> Emission, emitted: set<ProofKey>,
                   proofs: seq<ConcurrencyProof>, emittedNow: set<ProofKey>, key: ProofKey)
    requires current in m && Sound(m, current, changes, evidence, outcome, emitted, proofs, emittedNow)
    requires WasStored(m, current, changes, evidence, outcome, key)
    ensures Sound(m, current, changes, evidence, outcome, emitted, proofs, emittedNow + {key})
  {
    hide Justified, WasStored;
  }

  lemma SoundExtends(m: Registry, current: string, changes: seq<SymbolChange>, evidence: Evidence, outcome: ProofKey -> Emission, emitted: set<ProofKey>,
                     proofs: seq<ConcurrencyProof>, emittedNow: set<ProofKey>, proof: ConcurrencyProof)
    requires current in m
    requires Sound(m, current, changes, evidence, outcome, emitted, proofs, emittedNow)
    requires Justified(m, current, changes, evidence, proof) && KeyOfProof(proof) !in emittedNow && outcome(KeyOfProof(proof)).Taken?
    ensures Sound(m, current, changes, evidence, outcome, emitted, proofs + [proof], emittedNow + {KeyOfProof(proof)})
  {
    hide Justified, WasStored;
    forall i | 0 <= i < |proofs| ensures KeyOfProof(proofs[i]) != KeyOfProof(proof) {
      assert proofs[i] in proofs;
    }
    var all := proofs + [proof];
    assert forall p :: p in all <==> p in proofs || p == proof;
  }

  lemma SettledStays(m: Registry, current: string, changes: seq<SymbolChange>, evidence: Evidence, outcome: ProofKey -> Emission,
                     before: set<ProofKey>, after: set<ProofKey>)
    requires current in m && before <= after
    ensures forall first, second :: first in changes && second in changes && Settled(m, current, first, second, evidence, outcome, before)
                                    ==> Settled(m, current, first, second, evidence, outcome, after)
  {
    hide Emittable, Eligible;
  }

  lemma SettledHere(m: Registry, current: string, first: SymbolChange, second: SymbolChange, evidence: Evidence, outcome: ProofKey -> Emission,
                    emitted: set<ProofKey>, other: Option<string>)
    requires current in m
    requires other.Some? <==> exists x :: Owners(m, current, second) == {x}
    requires other.Some? ==> Owners(m, current, second) == {other.value}
    requires other.Some? && other.value in m && Eligible(m, current, other.value, first, second, evidence)
             && (outcome(KeyOf(first, second, m[current].registration.target)).AlreadyStored?
                 || (outcome(KeyOf(first, second, m[current].registration.target)).Taken? && Emittable(m, current, other.value, first, second, evidence)))
             ==> KeyOf(first, second, m[current].registration.target) in emitted
    ensures Settled(m, current, first, second, evidence, outcome, emitted)
  {
    OwnerOfEligible(m, current, first, second, evidence);
    var key := KeyOf(first, second, m[current].registration.target);
    forall x | x in m && Eligible(m, current, x, first, second, evidence)
               && (outcome(key).AlreadyStored? || (outcome(key).Taken? && Emittable(m, current, x, first, second, evidence)))
      ensures key in emitted
    {
      assert x in {x} && x in {other.value};
    }
  }

  lemma ProofIsJustified(m: Registry, current: string, other: string, changes: seq<SymbolChange>, i: nat, j: nat, evidence: Evidence)
    requires current in m && other in m && i < |changes| && j < |changes|
    requires Emittable(m, current, other, changes[i], changes[j], evidence)
    ensures Justified(m, current, changes, evidence,
                      ProofOf(m[current], m[other], changes[i], changes[j], Before(changes[i].eventId, changes[j].eventId)))
  {
    assert changes[i] in changes && changes[j] in changes;
  }

  lemma OwnerOfEligible(m: Registry, current: string, first: SymbolChange, second: SymbolChange, evidence: Evidence)
    requires current in m
    ensures forall other :: other in m && Eligible(m, current, other, first, second, evidence) ==> Owners(m, current, second) == {other}
  {
  }

  /** The element of a one-element set. */
  method TheOne(s: set<string>) returns (one: Option<string>)
    ensures one.Some? <==> exists x :: s == {x}
    ensures one.Some? ==> s == {one.value}
  {
    if s == {} { return None; }
    var x :| x in s;
    if s == {x} { return Some(x); }
    return None;
  }
}
