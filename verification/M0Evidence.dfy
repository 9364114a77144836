/**
 * The benchmark verifier of tools/phase2/m0-evidence.ts: it recomputes percentiles from raw samples,
 * and what a supplied artifact says about itself has no influence. Durations are real numbers.
 */
module M0Evidence {
  import opened Options
  import opened Sets
  import opened Texts

  // ---- Artifacts ----

  /** A JSON value where a number or null is expected. */
  datatype Value = NullValue | Number(r: real) | NotANumber

  datatype Failure = NoFailure | Described | MalformedFailure

  datatype Sample = MalformedSample | Sample(baselineNs: Value, instrumentedNs: Value, overheadNs: Value, failure: Failure)

  /** A field that should be an array is absent when it is none. */
  datatype Run =
    | MalformedRun
    | Run(runId: string, warmup: Option<seq<Sample>>, samples: Option<seq<Sample>>, p50Ms: Value, p95Ms: Value)

  datatype Summary = Summary(gateP95Ms: Value, failures: Value, accepted: Option<bool>)

  datatype Workload =
    | MalformedWorkload
    | Workload(workloadId: string, fileCount: real, budgetMs: real, coldMs: Value, coldRunsMs: Option<seq<Value>>,
               runs: Option<seq<Run>>, summary: Summary)

  datatype Decision = Decision(decision: string, reasonIsText: bool, ownerIsTextOrNull: bool, dueGateIsTextOrNull: bool)

  /** `headerValid` stands for the checks on keys, schema, definition, dates, commit format and environment identity. */
  datatype Evidence = Evidence(
    headerValid: bool, commit: string, gitDirty: bool, environment: map<string, string>,
    decision: Decision, workloads: Option<seq<Workload>>)

  datatype Contract = Contract(workloadId: string, fileCount: real, budgetMs: real)

  datatype Definition = Definition(
    percentile: real, warmupSamples: nat, measuredSamples: nat, independentRuns: nat, workloads: seq<Contract>)

  /** What the verifier was asked to bind the evidence to; a malformed request is `valid == false`. */
  datatype Request = Request(valid: bool, commit: Option<string>, environment: Option<map<string, string>>)

  datatype Outcome = Accepted | Deferred | Rejected

  ghost predicate IsDefinition(d: Definition) {
    0.0 < d.percentile <= 1.0 && d.measuredSamples > 0 && d.independentRuns > 0
    && forall i, j :: 0 <= i < j < |d.workloads| ==> d.workloads[i].workloadId != d.workloads[j].workloadId
  }

  // ---- Percentiles ----

  function Ceiling(x: real): int {
    -((-x).Floor)
  }

  /** The nearest rank of a percentile among `n` samples, counting from one. */
  function Rank(n: nat, p: real): int {
    Ceiling(n as real * p)
  }

  lemma RankIsInRange(n: nat, p: real)
    requires n > 0 && 0.0 < p <= 1.0
    ensures 1 <= Rank(n, p) <= n
  {
    assert 0.0 < n as real * p <= n as real;
  }

  /** The rank is the least whole number that is no less than the percentile's share. */
  lemma RankIsCeiling(n: nat, p: real, k: int)
    ensures Rank(n, p) <= k <==> n as real * p <= k as real
  {
    var share := n as real * p;
    assert ((-share).Floor) as real <= -share < ((-share).Floor) as real + 1.0;
  }

  function AtMost(samples: seq<real>, bound: real): nat {
    if samples == [] then 0 else (if samples[0] <= bound then 1 else 0) + AtMost(samples[1..], bound)
  }

  lemma {:induction false} AtMostOfConcat(a: seq<real>, b: seq<real>, bound: real)
    ensures AtMost(a + b, bound) == AtMost(a, bound) + AtMost(b, bound)
  {
    if a == [] {
      assert a + b == b;
    } else {
      AtMostOfConcat(a[1..], b, bound);
      assert (a + b)[1..] == a[1..] + b;
    }
  }

  ghost predicate Sorted(xs: seq<real>) {
    forall i, j :: 0 <= i < j < |xs| ==> xs[i] <= xs[j]
  }

  lemma {:induction false} AllWithin(xs: seq<real>, bound: real)
    requires forall i :: 0 <= i < |xs| ==> xs[i] <= bound
    ensures AtMost(xs, bound) == |xs|
  {
    if xs != [] { AllWithin(xs[1..], bound); }
  }

  lemma {:induction false} NoneWithin(xs: seq<real>, bound: real)
    requires forall i :: 0 <= i < |xs| ==> xs[i] > bound
    ensures AtMost(xs, bound) == 0
  {
    if xs != [] { NoneWithin(xs[1..], bound); }
  }

  lemma {:induction false} AtMostIsBounded(xs: seq<real>, bound: real)
    ensures AtMost(xs, bound) <= |xs|
  {
    if xs != [] { AtMostIsBounded(xs[1..], bound); }
  }

  /** In sorted order the `k`-th sample is within a bound exactly when at least `k` samples are. */
  lemma KthWithin(xs: seq<real>, k: nat, bound: real)
    requires Sorted(xs) && 1 <= k <= |xs|
    ensures xs[k - 1] <= bound <==> AtMost(xs, bound) >= k
  {
    hide AtMost;
    if xs[k - 1] <= bound {
      var front, back := xs[..k], xs[k..];
      assert xs == front + back;
      AtMostOfConcat(front, back, bound);
      forall i | 0 <= i < |front| ensures front[i] <= bound { assert front[i] == xs[i]; }
      AllWithin(front, bound);
    } else {
      var front, back := xs[..k - 1], xs[k - 1..];
      assert xs == front + back;
      AtMostOfConcat(front, back, bound);
      forall i | 0 <= i < |back| ensures back[i] > bound { assert back[i] == xs[k - 1 + i]; }
      NoneWithin(back, bound);
      AtMostIsBounded(front, bound);
    }
  }

  lemma InsertKeepsSorted(sorted: seq<real>, k: nat, x: real)
    requires Sorted(sorted) && k <= |sorted|
    requires k > 0 ==> sorted[k - 1] <= x
    requires forall j :: k <= j < |sorted| ==> x < sorted[j]
    ensures Sorted(sorted[..k] + [x] + sorted[k..])
  {
  }

  lemma InsertKeepsCounts(sorted: seq<real>, k: nat, x: real)
    requires k <= |sorted|
    ensures multiset(sorted[..k] + [x] + sorted[k..]) == multiset(sorted + [x])
    ensures forall bound :: AtMost(sorted[..k] + [x] + sorted[k..], bound) == AtMost(sorted + [x], bound)
  {
    hide AtMost;
    assert sorted == sorted[..k] + sorted[k..];
    forall bound ensures AtMost(sorted[..k] + [x] + sorted[k..], bound) == AtMost(sorted + [x], bound) {
      AtMostOfConcat(sorted, [x], bound);
      AtMostOfConcat(sorted[..k], sorted[k..], bound);
      AtMostOfConcat(sorted[..k] + [x], sorted[k..], bound);
      AtMostOfConcat(sorted[..k], [x], bound);
    }
  }

  method SortNumbers(samples: seq<real>) returns (sorted: seq<real>)
    ensures Sorted(sorted) && |sorted| == |samples| && multiset(sorted) == multiset(samples)
    ensures forall bound :: AtMost(sorted, bound) == AtMost(samples, bound)
  {
    hide AtMost, Sorted;
    sorted := [];
    assert Sorted([]) by { EmptyIsSorted(); }
    for i := 0 to |samples|
      invariant Sorted(sorted) && |sorted| == i && multiset(sorted) == multiset(samples[..i])
      invariant forall bound :: AtMost(sorted, bound) == AtMost(samples[..i], bound)
    {
      var k := i;
      while k > 0 && samples[i] < sorted[k - 1]
        invariant 0 <= k <= i && forall j :: k <= j < i ==> samples[i] < sorted[j]
      {
        k := k - 1;
      }
      InsertKeepsSorted(sorted, k, samples[i]);
      InsertKeepsCounts(sorted, k, samples[i]);
      assert samples[..i + 1] == samples[..i] + [samples[i]];
      forall bound ensures AtMost(sorted + [samples[i]], bound) == AtMost(samples[..i + 1], bound) {
        AtMostOfConcat(sorted, [samples[i]], bound);
        AtMostOfConcat(samples[..i], [samples[i]], bound);
      }
      sorted := sorted[..k] + [samples[i]] + sorted[k..];
    }
    assert samples[..|samples|] == samples;
  }

  lemma EmptyIsSorted()
    ensures Sorted([])
  {
  }

  /** `nearestRank`: a sample that is within a bound exactly when the rank's share of all samples is. */
  method NearestRank(samples: seq<real>, p: real) returns (rank: Option<real>)
    requires 0.0 < p <= 1.0
    ensures rank.None? <==> samples == []
    ensures rank.Some? ==> rank.value in samples
    ensures rank.Some? ==> forall bound :: rank.value <= bound <==> AtMost(samples, bound) >= Rank(|samples|, p)
  {
    if samples == [] { return None; }
    var sorted := SortNumbers(samples);
    RankIsInRange(|samples|, p);
    var k := Rank(|samples|, p);
    assert sorted[k - 1] in multiset(sorted);
    forall bound ensures sorted[k - 1] <= bound <==> AtMost(samples, bound) >= k {
      KthWithin(sorted, k, bound);
    }
    return Some(sorted[k - 1]);
  }

  // ---- What is well formed ----

  predicate FiniteNonNegative(v: Value) {
    v.Number? && v.r >= 0.0
  }

  predicate NullOrNonNegative(v: Value) {
    v.NullValue? || FiniteNonNegative(v)
  }

  predicate Complete(s: Sample) {
    s.Sample? && s.baselineNs.Number? && s.instrumentedNs.Number? && s.overheadNs.Number?
  }

  function Overhead(baseline: real, instrumented: real): real {
    if instrumented - baseline > 0.0 then instrumented - baseline else 0.0
  }

  predicate ValidSample(s: Sample) {
    && s.Sample? && !s.failure.MalformedFailure?
    && NullOrNonNegative(s.baselineNs) && NullOrNonNegative(s.instrumentedNs) && NullOrNonNegative(s.overheadNs)
    && (s.failure.NoFailure? ==> Complete(s))
    && (Complete(s) ==> s.overheadNs.r == Overhead(s.baselineNs.r, s.instrumentedNs.r))
  }

  predicate ShapedRun(r: Run, d: Definition) {
    && r.Run? && !Blank(r.runId) && NullOrNonNegative(r.p50Ms) && NullOrNonNegative(r.p95Ms)
    && r.warmup.Some? && |r.warmup.value| == d.warmupSamples && r.samples.Some? && |r.samples.value| == d.measuredSamples
  }

  ghost predicate ValidRun(r: Run, d: Definition) {
    ShapedRun(r, d) && forall i :: 0 <= i < |r.warmup.value + r.samples.value| ==> ValidSample((r.warmup.value + r.samples.value)[i])
  }

  ghost predicate DistinctRuns(runs: seq<Run>) {
    forall i, j :: 0 <= i < j < |runs| && runs[i].Run? && runs[j].Run? ==> runs[i].runId != runs[j].runId
  }

  ghost predicate ValidRuns(runs: seq<Run>, d: Definition) {
    (forall i :: 0 <= i < |runs| ==> ValidRun(runs[i], d)) && DistinctRuns(runs)
  }

  function Sum(values: seq<Value>): real {
    if values == [] then 0.0
    else Sum(values[..|values| - 1]) + if values[|values| - 1].Number? then values[|values| - 1].r else 0.0
  }

  /** The sum adds up: of two lists it is the sum of both, and of one number that number. */
  lemma {:induction false} SumAddsUp(a: seq<Value>, b: seq<Value>, x: real)
    ensures Sum(a + b) == Sum(a) + Sum(b) && Sum([Number(x)]) == x
  {
    assert [Number(x)][..0] == [];
    if b == [] {
      assert a + b == a;
    } else {
      SumAddsUp(a, b[..|b| - 1], x);
      assert (a + b)[..|a + b| - 1] == a + b[..|b| - 1];
    }
  }

  predicate ValidSummary(s: Summary) {
    && NullOrNonNegative(s.gateP95Ms) && FiniteNonNegative(s.failures) && s.failures.r == s.failures.r.Floor as real
    && s.accepted.Some?
  }

  function ContractOf(d: Definition, id: string): (c: Option<Contract>)
    ensures c.Some? ==> c.value in d.workloads && c.value.workloadId == id
    ensures c.None? ==> forall i :: 0 <= i < |d.workloads| ==> d.workloads[i].workloadId != id
  {
    FindContract(d.workloads, id)
  }

  function FindContract(contracts: seq<Contract>, id: string): (c: Option<Contract>)
    ensures c.Some? ==> c.value in contracts && c.value.workloadId == id
    ensures c.None? ==> forall i :: 0 <= i < |contracts| ==> contracts[i].workloadId != id
  {
    if contracts == [] then None
    else if contracts[0].workloadId == id then Some(contracts[0])
    else FindContract(contracts[1..], id)
  }

  predicate ShapedWorkload(w: Workload, d: Definition) {
    && w.Workload? && ContractOf(d, w.workloadId).Some?
    && w.fileCount == ContractOf(d, w.workloadId).value.fileCount && w.budgetMs == ContractOf(d, w.workloadId).value.budgetMs
    && FiniteNonNegative(w.coldMs) && w.coldRunsMs.Some? && |w.coldRunsMs.value| == d.independentRuns
    && (forall i :: 0 <= i < |w.coldRunsMs.value| ==> FiniteNonNegative(w.coldRunsMs.value[i]))
    && d.independentRuns > 0 && w.coldMs.r == Sum(w.coldRunsMs.value) / d.independentRuns as real
    && ValidSummary(w.summary) && w.runs.Some? && |w.runs.value| == d.independentRuns
  }

  ghost predicate ValidWorkload(w: Workload, d: Definition) {
    ShapedWorkload(w, d) && ValidRuns(w.runs.value, d)
  }

  predicate ValidDecision(d: Decision) {
    d.decision in {"accepted", "deferred", "rejected"} && d.reasonIsText && d.ownerIsTextOrNull && d.dueGateIsTextOrNull
  }

  ghost predicate DistinctWorkloads(workloads: seq<Workload>) {
    forall i, j :: 0 <= i < j < |workloads| && workloads[i].Workload? && workloads[j].Workload? ==>
      workloads[i].workloadId != workloads[j].workloadId
  }

  ghost predicate ValidWorkloads(workloads: seq<Workload>, d: Definition) {
    (forall i :: 0 <= i < |workloads| ==> ValidWorkload(workloads[i], d)) && DistinctWorkloads(workloads)
  }

  ghost predicate Structured(e: Evidence, d: Definition, q: Request) {
    && e.headerValid && q.valid && ValidDecision(e.decision)
    && e.workloads.Some? && |e.workloads.value| == |d.workloads| && ValidWorkloads(e.workloads.value, d)
  }

  // ---- What passes ----

  /** The retained overheads of a run in milliseconds. */
  function Overheads(samples: seq<Sample>): seq<real> {
    if samples == [] then []
    else
      var last := samples[|samples| - 1];
      Overheads(samples[..|samples| - 1])
      + if last.Sample? && last.overheadNs.Number? then [last.overheadNs.r / 1000000.0] else []
  }

  predicate Failed(s: Sample) {
    s.Sample? && !s.failure.NoFailure?
  }

  /** No sample failed, warm-up included, and the percentile's share of the overheads is within budget. */
  ghost predicate RunPasses(r: Run, d: Definition, budgetMs: real)
    requires ShapedRun(r, d)
  {
    && (forall i :: 0 <= i < |r.warmup.value + r.samples.value| ==> !Failed((r.warmup.value + r.samples.value)[i]))
    && |Overheads(r.samples.value)| == d.measuredSamples
    && AtMost(Overheads(r.samples.value), budgetMs) >= Rank(d.measuredSamples, d.percentile)
  }

  ghost predicate WorkloadPasses(w: Workload, d: Definition)
    requires ValidWorkload(w, d)
  {
    forall i :: 0 <= i < |w.runs.value| ==> RunPasses(w.runs.value[i], d, ContractOf(d, w.workloadId).value.budgetMs)
  }

  function Lower(text: string): string {
    seq(|text|, i requires 0 <= i < |text| => if 'A' <= text[i] <= 'Z' then (text[i] as int + 32) as char else text[i])
  }

  const IdentifyingKeys := ["os", "osRelease", "architecture", "cpu", "nodeVersion", "pnpmVersion"]

  predicate Identified(environment: map<string, string>, key: string) {
    key in environment && Lower(environment[key]) != "unknown" && Lower(environment[key]) != "unavailable"
  }

  predicate Bound(e: Evidence, q: Request) {
    && !e.gitDirty && q.commit == Some(e.commit)
    && q.environment.Some?
    && (forall key :: key in q.environment.value ==> key in e.environment && e.environment[key] == q.environment.value[key])
    && (forall i :: 0 <= i < |IdentifyingKeys| ==> Identified(e.environment, IdentifyingKeys[i]))
  }

  /** The outcome as a function of the raw samples, the binding and the well-formedness of the rest. */
  ghost function OutcomeOf(e: Evidence, d: Definition, q: Request): Outcome {
    if !Structured(e, d, q) then Rejected
    else if Bound(e, q) && forall i :: 0 <= i < |e.workloads.value| ==> WorkloadPasses(e.workloads.value[i], d) then Accepted
    else Deferred
  }

  // ---- The verifier ----

  method CheckSamples(samples: seq<Sample>) returns (valid: bool, failures: nat, overheads: seq<real>)
    ensures valid <==> forall i :: 0 <= i < |samples| ==> ValidSample(samples[i])
    ensures valid ==> (failures == 0 <==> forall i :: 0 <= i < |samples| ==> !Failed(samples[i]))
    ensures valid ==> overheads == Overheads(samples)
  {
    valid, failures, overheads := true, 0, [];
    for k := 0 to |samples|
      invariant valid <==> forall i :: 0 <= i < k ==> ValidSample(samples[i])
      invariant valid ==> (failures == 0 <==> forall i :: 0 <= i < k ==> !Failed(samples[i]))
      invariant valid ==> overheads == Overheads(samples[..k])
    {
      var sample := samples[k];
      assert samples[..k + 1][..k] == samples[..k];
      if !ValidSample(sample) {
        valid := false;
      } else {
        if !sample.failure.NoFailure? { failures := failures + 1; }
        if sample.overheadNs.Number? { overheads := overheads + [sample.overheadNs.r / 1000000.0]; }
      }
    }
    assert samples[..|samples|] == samples;
  }

  /** One run: its failures and, if every overhead was retained, its percentile. */
  method VerifyRun(r: Run, d: Definition) returns (valid: bool, failures: nat, p95: Option<real>)
    requires IsDefinition(d) && ShapedRun(r, d)
    ensures valid <==> ValidRun(r, d)
    ensures valid ==> forall budget :: failures == 0 && p95.Some? && p95.value <= budget <==> RunPasses(r, d, budget)
  {
    var all := r.warmup.value + r.samples.value;
    var warmupValid, warmupFailures, _ := CheckSamples(r.warmup.value);
    var measuredValid, measuredFailures, overheads := CheckSamples(r.samples.value);
    valid := warmupValid && measuredValid;
    failures := warmupFailures + measuredFailures;
    SplitSamples(r.warmup.value, r.samples.value);
    p95 := None;
    if |overheads| == d.measuredSamples { p95 := NearestRank(overheads, d.percentile); }
  }

  lemma SplitSamples(a: seq<Sample>, b: seq<Sample>)
    ensures (forall i :: 0 <= i < |a + b| ==> ValidSample((a + b)[i]))
            <==> (forall i :: 0 <= i < |a| ==> ValidSample(a[i])) && (forall i :: 0 <= i < |b| ==> ValidSample(b[i]))
    ensures (forall i :: 0 <= i < |a + b| ==> !Failed((a + b)[i]))
            <==> (forall i :: 0 <= i < |a| ==> !Failed(a[i])) && (forall i :: 0 <= i < |b| ==> !Failed(b[i]))
  {
    assert forall i :: 0 <= i < |a| ==> (a + b)[i] == a[i];
    assert forall i :: 0 <= i < |b| ==> (a + b)[|a| + i] == b[i];
  }

  /** The first `k` runs are valid, and their ids are distinct and seen. */
  ghost predicate ValidSoFar(runs: seq<Run>, k: nat, d: Definition, seen: set<string>)
    requires k <= |runs|
  {
    && (forall i :: 0 <= i < k ==> ValidRun(runs[i], d) && runs[i].Run? && runs[i].runId in seen)
    && DistinctRuns(runs[..k])
    && forall id :: id in seen ==> exists i :: 0 <= i < k && runs[i].Run? && runs[i].runId == id
  }

  lemma ValidOneMore(runs: seq<Run>, k: nat, d: Definition, seen: set<string>)
    requires k < |runs| && ValidSoFar(runs, k, d, seen)
    ensures runs[k].Run? && runs[k].runId !in seen && ValidRun(runs[k], d) ==> ValidSoFar(runs, k + 1, d, seen + {runs[k].runId})
    ensures runs[k].Run? && runs[k].runId in seen ==> !DistinctRuns(runs)
  {
    hide ValidRun;
    if runs[k].Run? && runs[k].runId !in seen && ValidRun(runs[k], d) {
      assert forall i :: 0 <= i < k ==> runs[..k + 1][i] == runs[..k][i];
    }
  }

  /** What the counters say about the runs so far. */
  ghost predicate Tallied(runs: seq<Run>, k: nat, d: Definition, budget: real, failures: nat, complete: bool, gateP95: Option<real>)
    requires k <= |runs| && forall i :: 0 <= i < k ==> ShapedRun(runs[i], d)
  {
    && (k > 0 && complete ==> gateP95.Some?)
    && (failures == 0 && complete && (gateP95.Some? ==> gateP95.value <= budget) <==> forall i :: 0 <= i < k ==> RunPasses(runs[i], d, budget))
  }

  /** One workload: the sum of its runs' failures and the maximum of their percentiles. */
  method VerifyWorkload(w: Workload, d: Definition) returns (valid: bool, failures: nat, gateP95: Option<real>)
    requires IsDefinition(d) && ShapedWorkload(w, d)
    ensures valid <==> ValidWorkload(w, d)
    ensures valid ==> (failures == 0 && gateP95.Some? && gateP95.value <= w.budgetMs <==> WorkloadPasses(w, d))
  {
    hide ValidRun, RunPasses, DistinctRuns, ShapedRun;
    var runs := w.runs.value;
    var seen: set<string> := {};
    var complete := true;
    failures, gateP95 := 0, None;
    assert DistinctRuns(runs[..0]) by { NoRuns(); }
    for k := 0 to |runs|
      invariant ValidSoFar(runs, k, d, seen)
      invariant forall i :: 0 <= i < k ==> ShapedRun(runs[i], d)
      invariant Tallied(runs, k, d, w.budgetMs, failures, complete, gateP95)
    {
      ShapeOfValid(runs[k], d);
      ValidOneMore(runs, k, d, seen);
      if !ShapedRun(runs[k], d) || runs[k].runId in seen { return false, 0, None; }
      var runValid, runFailures, p95 := VerifyRun(runs[k], d);
      if !runValid { return false, 0, None; }
      seen := seen + {runs[k].runId};
      failures := failures + runFailures;
      if p95.None? {
        complete := false;
      } else if gateP95.None? || p95.value > gateP95.value {
        gateP95 := p95;
      }
    }
    valid := true;
    assert runs[..|runs|] == runs;
    if !complete { gateP95 := None; }
  }

  lemma NoRuns()
    ensures DistinctRuns([])
  {
  }

  lemma ShapeOfValid(r: Run, d: Definition)
    ensures ValidRun(r, d) ==> ShapedRun(r, d)
    ensures ShapedRun(r, d) ==> r.Run?
  {
  }

  /** `verifyM0Evidence`. */
  method VerifyM0Evidence(e: Evidence, d: Definition, q: Request) returns (outcome: Outcome)
    requires IsDefinition(d)
    ensures outcome == OutcomeOf(e, d, q)
  {
    hide ValidRuns, WorkloadPasses, ShapedWorkload, Bound, ValidWorkload, DistinctWorkloads;
    if !e.headerValid || !q.valid || !ValidDecision(e.decision) { return Rejected; }
    if e.workloads.None? || |e.workloads.value| != |d.workloads| { return Rejected; }
    var workloads := e.workloads.value;
    var seen: set<string> := {};
    var passing := true;
    assert DistinctWorkloads(workloads[..0]) by { NoWorkloads(); }
    for k := 0 to |workloads|
      invariant WorkloadsSoFar(workloads, k, d, seen)
      invariant passing <==> forall i :: 0 <= i < k ==> WorkloadPasses(workloads[i], d)
    {
      ShapeOfWorkload(workloads[k], d);
      WorkloadsOneMore(workloads, k, d, seen);
      if !ShapedWorkload(workloads[k], d) || workloads[k].workloadId in seen { return Rejected; }
      var ok, failures, gateP95 := VerifyWorkload(workloads[k], d);
      if !ok { return Rejected; }
      seen := seen + {workloads[k].workloadId};
      if failures > 0 || gateP95.None? || gateP95.value > workloads[k].budgetMs { passing := false; }
    }
    assert workloads[..|workloads|] == workloads;
    return if passing && Bound(e, q) then Accepted else Deferred;
  }

  lemma NoWorkloads()
    ensures DistinctWorkloads([])
  {
  }

  /** The first `k` workloads are valid, and their ids are distinct and seen. */
  ghost predicate WorkloadsSoFar(workloads: seq<Workload>, k: nat, d: Definition, seen: set<string>)
    requires k <= |workloads|
  {
    && (forall i :: 0 <= i < k ==> ValidWorkload(workloads[i], d) && workloads[i].Workload? && workloads[i].workloadId in seen)
    && DistinctWorkloads(workloads[..k])
    && forall id :: id in seen ==> exists i :: 0 <= i < k && workloads[i].Workload? && workloads[i].workloadId == id
  }

  lemma WorkloadsOneMore(workloads: seq<Workload>, k: nat, d: Definition, seen: set<string>)
    requires k < |workloads| && WorkloadsSoFar(workloads, k, d, seen)
    ensures workloads[k].Workload? && workloads[k].workloadId !in seen && ValidWorkload(workloads[k], d) ==>
              WorkloadsSoFar(workloads, k + 1, d, seen + {workloads[k].workloadId})
    ensures workloads[k].Workload? && workloads[k].workloadId in seen ==> !DistinctWorkloads(workloads)
  {
    hide ValidWorkload;
    if workloads[k].Workload? && workloads[k].workloadId !in seen && ValidWorkload(workloads[k], d) {
      assert forall i :: 0 <= i < k ==> workloads[..k + 1][i] == workloads[..k][i];
    }
  }

  lemma ShapeOfWorkload(w: Workload, d: Definition)
    ensures ShapedWorkload(w, d) ==> w.Workload?
    ensures ValidWorkload(w, d) ==> ShapedWorkload(w, d)
  {
  }

  // ---- What acceptance means ----

  /** The timings of a sample differ by no more than the budget. */
  predicate InTime(s: Sample, budgetMs: real) {
    && s.Sample? && s.baselineNs.Number? && s.instrumentedNs.Number?
    && 0.0 <= budgetMs * 1000000.0 && s.instrumentedNs.r - s.baselineNs.r <= budgetMs * 1000000.0
  }

  ghost function InTimeAt(samples: seq<Sample>, budgetMs: real): set<nat> {
    set k: nat | k < |samples| && InTime(samples[k], budgetMs)
  }

  lemma {:induction false} CountsAgree(samples: seq<Sample>, budgetMs: real)
    requires forall i :: 0 <= i < |samples| ==> ValidSample(samples[i]) && Complete(samples[i])
    ensures AtMost(Overheads(samples), budgetMs) == |InTimeAt(samples, budgetMs)|
    ensures |Overheads(samples)| == |samples|
  {
    if samples == [] {
      assert InTimeAt(samples, budgetMs) == {};
    } else {
      var front, last := samples[..|samples| - 1], samples[|samples| - 1];
      CountsAgree(front, budgetMs);
      AtMostOfConcat(Overheads(front), [last.overheadNs.r / 1000000.0], budgetMs);
      var overhead := Overhead(last.baselineNs.r, last.instrumentedNs.r);
      assert overhead / 1000000.0 <= budgetMs <==> overhead <= budgetMs * 1000000.0;
      hide AtMost;
      OneMoreInTime(samples, budgetMs);
    }
  }

  lemma OneMoreInTime(samples: seq<Sample>, budgetMs: real)
    requires samples != []
    ensures |InTimeAt(samples, budgetMs)|
            == |InTimeAt(samples[..|samples| - 1], budgetMs)| + if InTime(samples[|samples| - 1], budgetMs) then 1 else 0
  {
    hide InTime;
    var front, last := samples[..|samples| - 1], samples[|samples| - 1];
    assert InTimeAt(samples, budgetMs) == InTimeAt(front, budgetMs) + if InTime(last, budgetMs) then {|samples| - 1} else {};
  }

  /** No sample of the run failed, and the percentile's share of the measured ones kept within the budget. */
  ghost predicate RunMeets(r: Run, d: Definition, budgetMs: real)
    requires r.Run? && r.warmup.Some? && r.samples.Some?
  {
    && (forall k :: 0 <= k < |r.warmup.value| ==> r.warmup.value[k].Sample? && r.warmup.value[k].failure.NoFailure?)
    && (forall k :: 0 <= k < |r.samples.value| ==> r.samples.value[k].Sample? && r.samples.value[k].failure.NoFailure?)
    && d.measuredSamples as real * d.percentile <= |InTimeAt(r.samples.value, budgetMs)| as real
  }

  lemma RunPassesIff(r: Run, d: Definition, budgetMs: real)
    requires ValidRun(r, d)
    ensures RunPasses(r, d, budgetMs) <==> RunMeets(r, d, budgetMs)
  {
    SplitSamples(r.warmup.value, r.samples.value);
    if forall k :: 0 <= k < |r.samples.value| ==> !Failed(r.samples.value[k]) {
      CountsAgree(r.samples.value, budgetMs);
      RankIsCeiling(d.measuredSamples, d.percentile, |InTimeAt(r.samples.value, budgetMs)|);
    }
  }

  /** Equal up to the case of letters; `lower` is written in lower case. */
  predicate Spells(text: string, lower: string) {
    && |text| == |lower|
    && forall i :: 0 <= i < |text| ==>
         (text[i] == lower[i] && !('A' <= text[i] <= 'Z')) || ('A' <= text[i] <= 'Z' && text[i] as int + 32 == lower[i] as int)
  }

  lemma LowerSpells(text: string, lower: string)
    ensures Lower(text) == lower <==> Spells(text, lower)
  {
    assert |Lower(text)| == |text|;
    assert forall i :: 0 <= i < |text| ==>
             Lower(text)[i] == if 'A' <= text[i] <= 'Z' then (text[i] as int + 32) as char else text[i];
  }

  predicate Identifying(key: string) {
    key in {"os", "osRelease", "architecture", "cpu", "nodeVersion", "pnpmVersion"}
  }

  /** The artifact is of a clean tree at the requested commit and of the requested, fully identified environment. */
  ghost predicate Matches(e: Evidence, q: Request) {
    && !e.gitDirty && q.commit.Some? && q.commit.value == e.commit && q.environment.Some?
    && (forall key :: key in q.environment.value ==> key in e.environment && e.environment[key] == q.environment.value[key])
    && forall key :: Identifying(key) ==>
         key in e.environment && !Spells(e.environment[key], "unknown") && !Spells(e.environment[key], "unavailable")
  }

  lemma IdentifiedIff(environment: map<string, string>, key: string)
    ensures Identified(environment, key)
            <==> key in environment && !Spells(environment[key], "unknown") && !Spells(environment[key], "unavailable")
  {
    if key in environment {
      LowerSpells(environment[key], "unknown");
      LowerSpells(environment[key], "unavailable");
    }
  }

  lemma BoundIff(e: Evidence, q: Request)
    ensures Bound(e, q) <==> Matches(e, q)
  {
    hide Spells;
    forall key: string ensures Identified(e.environment, key)
                       <==> key in e.environment && !Spells(e.environment[key], "unknown") && !Spells(e.environment[key], "unavailable")
    {
      IdentifiedIff(e.environment, key);
    }
    hide Identified;
    KeysAre();
  }

  lemma KeysAre()
    ensures forall key :: Identifying(key) <==> exists i :: 0 <= i < |IdentifyingKeys| && IdentifyingKeys[i] == key
  {
    var keys := IdentifyingKeys;
    assert keys[0] == "os" && keys[1] == "osRelease" && keys[2] == "architecture" && keys[3] == "cpu"
           && keys[4] == "nodeVersion" && keys[5] == "pnpmVersion";
  }

  /**
   * Well-formed evidence is accepted exactly when it matches the request and in every run of every
   * workload no sample failed and the percentile's share of the measured samples kept within the
   * budget contracted for that workload, as a statement on timings alone.
   */
  lemma AcceptedIff(e: Evidence, d: Definition, q: Request)
    requires IsDefinition(d) && Structured(e, d, q)
    ensures OutcomeOf(e, d, q) == Accepted <==>
              && Matches(e, q)
              && forall i, c :: 0 <= i < |e.workloads.value| && c in d.workloads && c.workloadId == e.workloads.value[i].workloadId ==>
                   forall j :: 0 <= j < |e.workloads.value[i].runs.value| ==> RunMeets(e.workloads.value[i].runs.value[j], d, c.budgetMs)
  {
    BoundIff(e, q);
    hide Bound, Matches;
    forall i | 0 <= i < |e.workloads.value|
      ensures WorkloadPasses(e.workloads.value[i], d)
              <==> forall c :: c in d.workloads && c.workloadId == e.workloads.value[i].workloadId ==> AllRunsMeet(e.workloads.value[i], d, c.budgetMs)
    {
      WorkloadPassesIff(e.workloads.value[i], d);
    }
  }

  ghost predicate AllRunsMeet(w: Workload, d: Definition, budgetMs: real)
    requires ValidWorkload(w, d)
  {
    forall j :: 0 <= j < |w.runs.value| ==> RunMeets(w.runs.value[j], d, budgetMs)
  }

  lemma WorkloadPassesIff(w: Workload, d: Definition)
    requires IsDefinition(d) && ValidWorkload(w, d)
    ensures WorkloadPasses(w, d) <==> forall c :: c in d.workloads && c.workloadId == w.workloadId ==> AllRunsMeet(w, d, c.budgetMs)
  {
    var contract := ContractOf(d, w.workloadId).value;
    forall c | c in d.workloads && c.workloadId == w.workloadId ensures c == contract { ContractIsOne(d, c); }
    forall j | 0 <= j < |w.runs.value|
      ensures RunPasses(w.runs.value[j], d, contract.budgetMs) <==> RunMeets(w.runs.value[j], d, contract.budgetMs)
    {
      RunPassesIff(w.runs.value[j], d, contract.budgetMs);
    }
  }

  /** Accepted evidence holds samples whose overheads are the non-negative differences of their timings. */
  lemma AcceptedMeansMeasured(e: Evidence, d: Definition, q: Request, i: nat, j: nat)
    requires IsDefinition(d) && OutcomeOf(e, d, q) == Accepted
    requires i < |e.workloads.value| && j < |e.workloads.value[i].runs.value|
    ensures e.workloads.value[i].Workload? && exists c :: c in d.workloads && c.workloadId == e.workloads.value[i].workloadId
    ensures var w := e.workloads.value[i];
            var r := w.runs.value[j];
            && r.Run? && r.warmup.Some? && r.samples.Some? && |r.samples.value| == d.measuredSamples
            && (forall c :: c in d.workloads && c.workloadId == w.workloadId ==> RunMeets(r, d, c.budgetMs))
            && (forall k :: 0 <= k < |r.samples.value| ==>
                  var s := r.samples.value[k];
                  && Complete(s) && s.baselineNs.r >= 0.0 && s.instrumentedNs.r >= 0.0
                  && (s.instrumentedNs.r >= s.baselineNs.r ==> s.overheadNs.r == s.instrumentedNs.r - s.baselineNs.r)
                  && (s.instrumentedNs.r < s.baselineNs.r ==> s.overheadNs.r == 0.0))
  {
    var w := e.workloads.value[i];
    assert ValidWorkload(w, d) && WorkloadPasses(w, d);
    var r, budget := w.runs.value[j], ContractOf(d, w.workloadId).value.budgetMs;
    assert ValidRun(r, d) && RunPasses(r, d, budget);
    RunPassesIff(r, d, budget);
    SplitSamples(r.warmup.value, r.samples.value);
    forall c | c in d.workloads && c.workloadId == w.workloadId ensures c.budgetMs == budget { ContractIsOne(d, c); }
  }

  lemma ContractIsOne(d: Definition, c: Contract)
    requires IsDefinition(d) && c in d.workloads
    ensures ContractOf(d, c.workloadId) == Some(c)
  {
    var i :| 0 <= i < |d.workloads| && d.workloads[i] == c;
    var found := ContractOf(d, c.workloadId).value;
    var j :| 0 <= j < |d.workloads| && d.workloads[j] == found;
  }

  /** Accepted evidence covers every contracted workload. */
  lemma AcceptedCoversContract(e: Evidence, d: Definition, q: Request, c: Contract)
    requires IsDefinition(d) && OutcomeOf(e, d, q) == Accepted && c in d.workloads
    ensures exists i :: 0 <= i < |e.workloads.value| && e.workloads.value[i].Workload? && e.workloads.value[i].workloadId == c.workloadId
  {
    var workloads := e.workloads.value;
    WorkloadsAreContracted(workloads, d);
    hide OutcomeOf, ValidWorkloads, ContractOf, DistinctWorkloads;
    var supplied := seq(|workloads|, i requires 0 <= i < |workloads| => workloads[i].workloadId);
    var contracted := seq(|d.workloads|, i requires 0 <= i < |d.workloads| => d.workloads[i].workloadId);
    assert |workloads| == |d.workloads| by { AcceptedHasAll(e, d, q); }
    var j :| 0 <= j < |d.workloads| && d.workloads[j] == c;
    assert contracted[j] == c.workloadId;
    forall i | 0 <= i < |supplied| ensures supplied[i] in contracted {
      var k :| 0 <= k < |d.workloads| && d.workloads[k].workloadId == workloads[i].workloadId;
      assert contracted[k] == supplied[i];
    }
    NoIdIsLeftOver(supplied, contracted, c.workloadId);
  }

  lemma AcceptedHasAll(e: Evidence, d: Definition, q: Request)
    requires OutcomeOf(e, d, q) == Accepted
    ensures |e.workloads.value| == |d.workloads|
  {
  }

  /** As many distinct ids, all of them listed, leave none over. */
  lemma NoIdIsLeftOver(some: seq<string>, all: seq<string>, id: string)
    requires |some| == |all| && id in all && forall i :: 0 <= i < |some| ==> some[i] in all
    requires forall i, j :: 0 <= i < j < |some| ==> some[i] != some[j]
    requires forall i, j :: 0 <= i < j < |all| ==> all[i] != all[j]
    ensures id in some
  {
    CountIds(some);
    CountIds(all);
    hide IdSet;
    assert IdSet(some) <= IdSet(all);
    SubsetOfEqualSize(IdSet(some), IdSet(all));
  }

  ghost predicate Contracted(d: Definition, id: string) {
    exists j :: 0 <= j < |d.workloads| && d.workloads[j].workloadId == id
  }

  lemma WorkloadsAreContracted(workloads: seq<Workload>, d: Definition)
    requires ValidWorkloads(workloads, d)
    ensures forall i :: 0 <= i < |workloads| ==> workloads[i].Workload? && Contracted(d, workloads[i].workloadId)
    ensures forall i, j :: 0 <= i < j < |workloads| ==> workloads[i].workloadId != workloads[j].workloadId
  {
    hide Contracted, ContractOf;
    forall i | 0 <= i < |workloads| ensures workloads[i].Workload? && Contracted(d, workloads[i].workloadId) {
      assert ValidWorkload(workloads[i], d);
      ContractIsListed(d, workloads[i].workloadId);
    }
  }

  lemma ContractIsListed(d: Definition, id: string)
    requires ContractOf(d, id).Some?
    ensures Contracted(d, id)
  {
    var found := ContractOf(d, id).value;
    var j :| 0 <= j < |d.workloads| && d.workloads[j] == found;
  }

  /** The distinct strings of a list. */
  ghost function IdSet(ids: seq<string>): set<string> {
    if ids == [] then {} else IdSet(ids[..|ids| - 1]) + {ids[|ids| - 1]}
  }

  lemma {:induction false} CountIds(ids: seq<string>)
    ensures forall id :: id in IdSet(ids) <==> id in ids
    ensures (forall i, j :: 0 <= i < j < |ids| ==> ids[i] != ids[j]) ==> |IdSet(ids)| == |ids|
  {
    if ids != [] {
      var front, last := ids[..|ids| - 1], ids[|ids| - 1];
      CountIds(front);
      assert ids == front + [last];
    }
  }

  // ---- What has no influence ----

  predicate SameRun(a: Run, b: Run) {
    a.Run? && b.Run? && a.runId == b.runId && a.warmup == b.warmup && a.samples == b.samples
    && NullOrNonNegative(a.p50Ms) && NullOrNonNegative(a.p95Ms) && NullOrNonNegative(b.p50Ms) && NullOrNonNegative(b.p95Ms)
  }

  /** Equal but for well-formed summaries, of the workload and of its runs. */
  ghost predicate SameWorkload(a: Workload, b: Workload) {
    && a.Workload? && b.Workload? && ValidSummary(a.summary) && ValidSummary(b.summary)
    && a.workloadId == b.workloadId && a.fileCount == b.fileCount && a.budgetMs == b.budgetMs
    && a.coldMs == b.coldMs && a.coldRunsMs == b.coldRunsMs && (a.runs.Some? <==> b.runs.Some?)
    && (a.runs.Some? ==> |a.runs.value| == |b.runs.value| && forall i :: 0 <= i < |a.runs.value| ==> SameRun(a.runs.value[i], b.runs.value[i]))
  }

  ghost predicate SameRaw(a: Evidence, b: Evidence) {
    && a.headerValid == b.headerValid && a.commit == b.commit && a.gitDirty == b.gitDirty && a.environment == b.environment
    && ValidDecision(a.decision) && ValidDecision(b.decision) && (a.workloads.Some? <==> b.workloads.Some?)
    && (a.workloads.Some? ==> |a.workloads.value| == |b.workloads.value|)
    && (a.workloads.Some? ==> forall i :: 0 <= i < |a.workloads.value| ==> SameWorkload(a.workloads.value[i], b.workloads.value[i]))
  }

  lemma SameWorkloadSameVerdict(a: Workload, b: Workload, d: Definition)
    requires SameWorkload(a, b)
    ensures ValidWorkload(a, d) <==> ValidWorkload(b, d)
    ensures ValidWorkload(a, d) ==> (WorkloadPasses(a, d) <==> WorkloadPasses(b, d))
  {
    if a.runs.Some? {
      forall i | 0 <= i < |a.runs.value|
        ensures ShapedRun(a.runs.value[i], d) <==> ShapedRun(b.runs.value[i], d)
        ensures ValidRun(a.runs.value[i], d) <==> ValidRun(b.runs.value[i], d)
        ensures a.runs.value[i].runId == b.runs.value[i].runId
        ensures ShapedRun(a.runs.value[i], d) ==> forall budget :: RunPasses(a.runs.value[i], d, budget) <==> RunPasses(b.runs.value[i], d, budget)
      {
        assert SameRun(a.runs.value[i], b.runs.value[i]);
      }
    }
  }

  /** Two artifacts that differ only in well-formed summaries and decision fields get the same outcome. */
  lemma SummariesHaveNoInfluence(a: Evidence, b: Evidence, d: Definition, q: Request)
    requires SameRaw(a, b)
    ensures OutcomeOf(a, d, q) == OutcomeOf(b, d, q)
  {
    hide ValidWorkload, WorkloadPasses;
    if a.workloads.Some? {
      forall i | 0 <= i < |a.workloads.value|
        ensures ValidWorkload(a.workloads.value[i], d) <==> ValidWorkload(b.workloads.value[i], d)
        ensures ValidWorkload(a.workloads.value[i], d) ==> (WorkloadPasses(a.workloads.value[i], d) <==> WorkloadPasses(b.workloads.value[i], d))
        ensures a.workloads.value[i].Workload? && b.workloads.value[i].Workload? && a.workloads.value[i].workloadId == b.workloads.value[i].workloadId
      {
        SameWorkloadSameVerdict(a.workloads.value[i], b.workloads.value[i], d);
      }
    }
  }
}
