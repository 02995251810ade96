/** A grouped run: nested loops over batches and suites that collect diagnostics and results, the
    status that is reported, and the progress percentages on the way. */
module GroupedDispatch {
  import opened Text
  import opened Expectations
  import opened Evaluation
  import opened Results
  import opened Progress

  // ---------------------------------------------------------------------------
  // Batches and suites
  // ---------------------------------------------------------------------------

  datatype Suite = Suite(id: string, version: nat, targets: seq<string>, env: Env, expectations: seq<Expectation>)

  /** `readable` says whether the location of the target is usable and its dataset can be read. */
  datatype Batch = Batch(target: string, suites: seq<Suite>, readable: bool)

  /** What the surroundings of a run do: whether the locations of the targets resolve, whether there is
      a Spark session, and which of the progress reports get through. */
  datatype World = World(resolved: bool, session: bool, reported: nat -> bool)

  /** A diagnostic as it is reported: with the target and suite it comes from. */
  datatype Tagged = Tagged(target: string, suiteId: string, suiteVersion: nat, diagnostic: Diagnostic)

  datatype SuiteResult = SuiteResult(suiteId: string, suiteVersion: nat, ok: bool, entries: seq<Entry>)

  datatype BatchResult = BatchResult(target: string, suiteResults: seq<SuiteResult>, ok: bool)

  datatype Report = Report(
    succeeded: bool, batchResults: seq<BatchResult>, suiteCount: nat, diagnostics: seq<Tagged>, percents: seq<int>)

  function Outcome(s: Suite): (r: Result<seq<Judged>>)
    ensures r.Ok? ==> |r.value| == |s.expectations|
  {
    JudgeAll(s.env, s.expectations)
  }

  /** The suite is attached to the target and its evaluation returns normally. */
  predicate Runs(target: string, s: Suite) { target in s.targets && Outcome(s).Ok? }

  ghost predicate BatchRuns(b: Batch) {
    && b.target != "" && b.suites != [] && b.readable
    && forall k :: 0 <= k < |b.suites| ==> Runs(b.target, b.suites[k])
  }

  /** Every expectation of the suite passes. */
  ghost predicate SuiteOk(s: Suite) {
    Outcome(s).Ok? && forall k :: 0 <= k < |Outcome(s).value| ==> Outcome(s).value[k].passed
  }

  ghost predicate BatchOk(b: Batch) { forall k :: 0 <= k < |b.suites| ==> SuiteOk(b.suites[k]) }

  ghost predicate AllReturn(suites: seq<Suite>) { forall k :: 0 <= k < |suites| ==> Outcome(suites[k]).Ok? }

  ghost predicate AllRun(batches: seq<Batch>) { forall i :: 0 <= i < |batches| ==> BatchRuns(batches[i]) }

  function TagAll(target: string, s: Suite, ds: seq<Diagnostic>): (r: seq<Tagged>)
    ensures |r| == |ds|
    ensures forall k :: 0 <= k < |ds| ==> r[k] == Tagged(target, s.id, s.version, ds[k])
  {
    seq(|ds|, k requires 0 <= k < |ds| => Tagged(target, s.id, s.version, ds[k]))
  }

  function SuiteTags(target: string, s: Suite): (r: seq<Tagged>)
    requires Outcome(s).Ok?
  {
    TagAll(target, s, DiagnosticsOf(Outcome(s).value))
  }

  function BatchTags(target: string, suites: seq<Suite>): (r: seq<Tagged>)
    requires AllReturn(suites)
  {
    if suites == [] then [] else BatchTags(target, suites[..|suites| - 1]) + SuiteTags(target, suites[|suites| - 1])
  }

  function AllTags(batches: seq<Batch>): (r: seq<Tagged>)
    requires AllRun(batches)
  {
    if batches == [] then []
    else
      var last := batches[|batches| - 1];
      assert BatchRuns(last);
      AllTags(batches[..|batches| - 1]) + BatchTags(last.target, last.suites)
  }

  function SuiteTotal(batches: seq<Batch>): (n: nat) {
    if batches == [] then 0 else SuiteTotal(batches[..|batches| - 1]) + |batches[|batches| - 1].suites|
  }

  ghost predicate SuiteResultRight(target: string, s: Suite, r: SuiteResult) {
    && Outcome(s).Ok? && r.suiteId == s.id && r.suiteVersion == s.version && (r.ok <==> SuiteOk(s))
    && Rebuilds(s.env, Outcome(s).value, r.entries)
  }

  ghost predicate BatchResultRight(b: Batch, r: BatchResult) {
    && r.target == b.target && |r.suiteResults| == |b.suites| && (r.ok <==> BatchOk(b))
    && forall k :: 0 <= k < |b.suites| ==> SuiteResultRight(b.target, b.suites[k], r.suiteResults[k])
  }

  lemma SuiteOkMeaning(s: Suite)
    requires Outcome(s).Ok?
    ensures Summarized(s.env, Outcome(s).value).ok <==> SuiteOk(s)
    ensures SuiteOk(s) <==> DiagnosticsOf(Outcome(s).value) == []
  {
    AllPassed(Outcome(s).value);
    SummaryMeaning(s.env, s.expectations, 0);
  }

  /** What one suite adds to the run. */
  datatype SuiteRun = SuiteRun(result: SuiteResult, tags: seq<Tagged>)

  ghost predicate SuiteRunRight(target: string, s: Suite, r: SuiteRun) {
    SuiteResultRight(target, s, r.result) && r.tags == SuiteTags(target, s)
  }

  datatype BatchRun = BatchRun(result: BatchResult, tags: seq<Tagged>)

  ghost predicate BatchRunRight(b: Batch, r: BatchRun) {
    BatchRuns(b) && BatchResultRight(b, r.result) && r.tags == BatchTags(b.target, b.suites)
  }

  method RunSuite(target: string, s: Suite) returns (r: Result<SuiteRun>)
    ensures r.Ok? <==> Runs(target, s)
    ensures r.Ok? ==> SuiteRunRight(target, s, r.value)
  {
    if target !in s.targets {
      return Err("GX_DISPATCH_INVALID_PAYLOAD");
    }
    var evaluated := EvaluateExpectations(s.env, s.expectations);
    if evaluated.Err? {
      return Err(evaluated.message);
    }
    SuiteOkMeaning(s);
    hide SuiteOk, JudgeAll, DiagnosticsOf, ResultsOf, PassedCount;
    var Evaluated(ok, summary, diagnostics) := evaluated.value;
    var entries := BuildRuleResults(|s.expectations|, diagnostics, summary.rowCount, summary.ruleResults);
    r := Ok(SuiteRun(SuiteResult(s.id, s.version, ok, entries), TagAll(target, s, diagnostics)));
  }

  lemma NextSuite(target: string, suites: seq<Suite>, k: nat)
    requires k < |suites| && AllReturn(suites[..k]) && Outcome(suites[k]).Ok?
    ensures AllReturn(suites[..k + 1])
    ensures BatchTags(target, suites[..k + 1]) == BatchTags(target, suites[..k]) + SuiteTags(target, suites[k])
  {
    hide Outcome, SuiteTags;
    assert suites[..k + 1][..k] == suites[..k];
  }

  lemma NextBatch(batches: seq<Batch>, k: nat)
    requires k < |batches| && AllRun(batches[..k]) && BatchRuns(batches[k])
    ensures AllRun(batches[..k + 1]) && AllReturn(batches[k].suites)
    ensures AllTags(batches[..k + 1]) == AllTags(batches[..k]) + BatchTags(batches[k].target, batches[k].suites)
    ensures SuiteTotal(batches[..k + 1]) == SuiteTotal(batches[..k]) + |batches[k].suites|
  {
    hide BatchTags, Outcome;
    assert batches[..k + 1][..k] == batches[..k];
  }

  /** The batch loop after `k` suites. */
  ghost predicate SuitesDone(b: Batch, k: nat, results: seq<SuiteResult>, ok: bool, tags: seq<Tagged>)
    requires k <= |b.suites|
  {
    && |results| == k && AllReturn(b.suites[..k]) && tags == BatchTags(b.target, b.suites[..k])
    && (forall i :: 0 <= i < k ==> Runs(b.target, b.suites[i]) && SuiteResultRight(b.target, b.suites[i], results[i]))
    && (ok <==> forall i :: 0 <= i < k ==> SuiteOk(b.suites[i]))
  }

  lemma SuitesStart(b: Batch)
    ensures SuitesDone(b, 0, [], true, [])
  {
  }

  lemma SuiteDone(b: Batch, k: nat, results: seq<SuiteResult>, ok: bool, tags: seq<Tagged>, run: SuiteRun)
    requires k < |b.suites| && SuitesDone(b, k, results, ok, tags)
    requires Runs(b.target, b.suites[k]) && SuiteRunRight(b.target, b.suites[k], run)
    ensures SuitesDone(b, k + 1, results + [run.result], ok && run.result.ok, tags + run.tags)
  {
    hide SuiteOk, SuiteTags, Outcome, BatchTags, Rebuilds;
    NextSuite(b.target, b.suites, k);
  }

  lemma BatchDone(b: Batch, results: seq<SuiteResult>, ok: bool, tags: seq<Tagged>)
    requires b.target != "" && b.suites != [] && b.readable && SuitesDone(b, |b.suites|, results, ok, tags)
    ensures BatchRunRight(b, BatchRun(BatchResult(b.target, results, ok), tags))
  {
    hide SuiteOk, SuiteTags, Outcome, BatchTags, SuiteResultRight;
    assert b.suites[..|b.suites|] == b.suites;
  }

  method RunBatch(b: Batch) returns (r: Result<BatchRun>)
    ensures r.Ok? <==> BatchRuns(b)
    ensures r.Ok? ==> BatchRunRight(b, r.value)
  {
    hide SuitesDone, SuiteRunRight, BatchRunRight, Runs;
    if b.target == "" || b.suites == [] {
      return Err("GX_DISPATCH_INVALID_PAYLOAD");
    }
    if !b.readable {
      return Err("GX_WORKER_FAILED");
    }
    var batchOk := true;
    var tags: seq<Tagged> := [];
    var suiteResults: seq<SuiteResult> := [];
    SuitesStart(b);
    for k := 0 to |b.suites|
      invariant SuitesDone(b, k, suiteResults, batchOk, tags)
    {
      var run := RunSuite(b.target, b.suites[k]);
      if run.Err? {
        return Err(run.message);
      }
      SuiteDone(b, k, suiteResults, batchOk, tags, run.value);
      suiteResults := suiteResults + [run.value.result];
      if !run.value.result.ok {
        batchOk := false;
      }
      tags := tags + run.value.tags;
    }
    BatchDone(b, suiteResults, batchOk, tags);
    RightBatchRuns(b, BatchRun(BatchResult(b.target, suiteResults, batchOk), tags));
    r := Ok(BatchRun(BatchResult(b.target, suiteResults, batchOk), tags));
  }

  lemma RightBatchRuns(b: Batch, r: BatchRun)
    requires BatchRunRight(b, r)
    ensures BatchRuns(b)
  {
  }

  /** The run loop after `k` batches. */
  ghost predicate BatchesDone(batches: seq<Batch>, k: nat, results: seq<BatchResult>, ok: bool, tags: seq<Tagged>,
                              count: nat)
    requires k <= |batches|
  {
    && |results| == k && AllRun(batches[..k]) && tags == AllTags(batches[..k]) && count == SuiteTotal(batches[..k])
    && (forall i :: 0 <= i < k ==> BatchResultRight(batches[i], results[i]))
    && (ok <==> forall i :: 0 <= i < k ==> BatchOk(batches[i]))
  }

  lemma BatchesStart(batches: seq<Batch>)
    ensures BatchesDone(batches, 0, [], true, [], 0)
  {
  }

  lemma BatchStepDone(batches: seq<Batch>, k: nat, results: seq<BatchResult>, ok: bool, tags: seq<Tagged>, count: nat,
                      run: BatchRun)
    requires k < |batches| && BatchesDone(batches, k, results, ok, tags, count) && BatchRunRight(batches[k], run)
    ensures BatchesDone(batches, k + 1, results + [run.result], ok && run.result.ok, tags + run.tags,
                        count + |run.result.suiteResults|)
  {
    hide BatchOk, SuiteResultRight, BatchTags, AllTags, SuiteTotal, BatchRuns;
    NextBatch(batches, k);
  }

  /** What a finished run reports: its status is "succeeded" iff every expectation of every suite
      of every batch passed, its diagnostics are all those collected (none on success), and its
      percentages climb from 0 to 100. */
  ghost predicate ReportRight(batches: seq<Batch>, r: Report) {
    && AllRun(batches)
    && (r.succeeded <==> forall i :: 0 <= i < |batches| ==> BatchOk(batches[i]))
    && r.diagnostics == AllTags(batches)
    && r.suiteCount == SuiteTotal(batches)
    && |r.batchResults| == |batches|
    && (forall i :: 0 <= i < |batches| ==> BatchResultRight(batches[i], r.batchResults[i]))
    && r.percents != [] && NeverDecreases(r.percents)
    && r.percents[0] == 0 && r.percents[|r.percents| - 1] == 100 && forall p :: p in r.percents ==> 0 <= p <= 100
  }

  lemma RunDone(fl: real -> real, batches: seq<Batch>, results: seq<BatchResult>, ok: bool, tags: seq<Tagged>,
                count: nat, percents: seq<int>)
    requires Rounding(fl) && BatchesDone(batches, |batches|, results, ok, tags, count)
    requires |percents| == |batches| + 2
    requires forall i :: 0 <= i < |percents| ==> percents[i] == Percent(fl, i, |batches| + 1)
    ensures var all := percents + [Percent(fl, |batches| + 1, |batches| + 1)];
            ReportRight(batches, Report(ok, results, count, if ok then [] else tags, all))
  {
    hide BatchOk, BatchResultRight, AllTags, SuiteTotal, BatchRuns, Percent, NeverDecreases, Rounding;
    assert batches[..|batches|] == batches;
    ProgressClimbs(fl, percents, |batches| + 1);
    if ok { SuccessIsSilent(batches); }
  }

  /** Every progress report of a run over `n` batches gets through. */
  ghost predicate AllReported(w: World, n: nat) { forall i :: 0 <= i < n + 2 ==> w.reported(i) }

  /** The grouped run reports its end iff there are batches, each of them is well-formed, readable and
      evaluates to the end, and every step on the way succeeds, the progress reports included. Wherever
      it stops, the percentages sent so far never went back. */
  method RunGrouped(fl: real -> real, batches: seq<Batch>, w: World) returns (r: Result<Report>, progress: seq<int>)
    requires Rounding(fl)
    ensures r.Ok? <==> batches != [] && AllRun(batches) && w.resolved && w.session && AllReported(w, |batches|)
    ensures r.Ok? ==> ReportRight(batches, r.value) && progress <= r.value.percents
    ensures NeverDecreases(progress) && forall p :: p in progress ==> 0 <= p <= 100
  {
    hide BatchesDone, BatchRunRight, ReportRight, BatchRuns, Percent, Rounding, NeverDecreases;
    progress := [];
    StepsClimb(fl, progress, 0);
    if batches == [] {
      return Err("GX_DISPATCH_INVALID_PAYLOAD"), progress;
    }
    var totalSteps := |batches| + 1;
    if !w.reported(0) {
      return Err("DQ_API_REQUEST_FAILED"), progress;
    }
    progress := [Percent(fl, 0, totalSteps)];
    StepsClimb(fl, progress, totalSteps);
    if !w.resolved {
      return Err("GX_WORKER_FAILED"), progress;
    }
    if !w.reported(1) {
      return Err("DQ_API_REQUEST_FAILED"), progress;
    }
    progress := progress + [Percent(fl, 1, totalSteps)];
    StepsClimb(fl, progress, totalSteps);
    if !w.session {
      return Err("GX_WORKER_FAILED"), progress;
    }
    r, progress := RunBatches(fl, batches, w, progress);
  }

  /** The loop over the batches and the final report. */
  method RunBatches(fl: real -> real, batches: seq<Batch>, w: World, sent: seq<int>)
    returns (r: Result<Report>, progress: seq<int>)
    requires Rounding(fl) && batches != [] && w.reported(0) && w.reported(1)
    requires sent == [Percent(fl, 0, |batches| + 1), Percent(fl, 1, |batches| + 1)]
    ensures r.Ok? <==> AllRun(batches) && AllReported(w, |batches|)
    ensures r.Ok? ==> ReportRight(batches, r.value) && progress <= r.value.percents
    ensures NeverDecreases(progress) && forall p :: p in progress ==> 0 <= p <= 100
  {
    hide BatchesDone, BatchRunRight, ReportRight, BatchRuns, Percent, Rounding, NeverDecreases;
    var totalSteps := |batches| + 1;
    progress := sent;
    var allOk := true;
    var allDiagnostics: seq<Tagged> := [];
    var batchResults: seq<BatchResult> := [];
    var totalSuiteCount: nat := 0;
    BatchesStart(batches);
    StepsClimb(fl, progress, totalSteps);
    for k := 0 to |batches|
      invariant BatchesDone(batches, k, batchResults, allOk, allDiagnostics, totalSuiteCount)
      invariant |progress| == k + 2 && forall i :: 0 <= i < k + 2 ==> progress[i] == Percent(fl, i, totalSteps)
      invariant forall i :: 0 <= i < k + 2 ==> w.reported(i)
    {
      StepsClimb(fl, progress, totalSteps);
      var run := RunBatch(batches[k]);
      if run.Err? {
        return Err(run.message), progress;
      }
      BatchStepDone(batches, k, batchResults, allOk, allDiagnostics, totalSuiteCount, run.value);
      if !run.value.result.ok {
        allOk := false;
      }
      allDiagnostics := allDiagnostics + run.value.tags;
      totalSuiteCount := totalSuiteCount + |run.value.result.suiteResults|;
      batchResults := batchResults + [run.value.result];
      if !w.reported(k + 2) {
        return Err("DQ_API_REQUEST_FAILED"), progress;
      }
      progress := progress + [Percent(fl, k + 2, totalSteps)];
    }
    StepsClimb(fl, progress, totalSteps);
    RunDone(fl, batches, batchResults, allOk, allDiagnostics, totalSuiteCount, progress);
    var percents := progress + [Percent(fl, totalSteps, totalSteps)];
    if allOk {
      r := Ok(Report(true, batchResults, totalSuiteCount, [], percents));
    } else {
      r := Ok(Report(false, batchResults, totalSuiteCount, allDiagnostics, percents));
    }
    RightReportRuns(batches, r.value);
  }

  lemma RightReportRuns(batches: seq<Batch>, r: Report)
    requires ReportRight(batches, r)
    ensures AllRun(batches)
  {
  }

  // ---------------------------------------------------------------------------
  // Diagnostics
  // ---------------------------------------------------------------------------

  ghost predicate ComesFrom(t: Tagged, s: Suite) {
    && t.suiteId == s.id && t.suiteVersion == s.version
    && Outcome(s).Ok? && t.diagnostic in DiagnosticsOf(Outcome(s).value)
  }

  lemma {:induction false} SilentSuites(target: string, suites: seq<Suite>)
    requires forall k :: 0 <= k < |suites| ==> SuiteOk(suites[k])
    ensures AllReturn(suites) && BatchTags(target, suites) == []
  {
    if suites != [] {
      SuiteOkMeaning(suites[|suites| - 1]);
      SilentSuites(target, suites[..|suites| - 1]);
    }
  }

  /** A run in which everything passes has collected no diagnostic, so reporting none loses nothing. */
  lemma {:induction false} SuccessIsSilent(batches: seq<Batch>)
    requires AllRun(batches) && forall i :: 0 <= i < |batches| ==> BatchOk(batches[i])
    ensures AllTags(batches) == []
  {
    if batches != [] {
      var last := batches[|batches| - 1];
      assert BatchRuns(last) && BatchOk(last);
      SilentSuites(last.target, last.suites);
      SuccessIsSilent(batches[..|batches| - 1]);
    }
  }

  ghost predicate FromSuites(t: Tagged, target: string, suites: seq<Suite>) {
    t.target == target && exists k :: 0 <= k < |suites| && ComesFrom(t, suites[k])
  }

  lemma FromSuitesSplit(t: Tagged, target: string, suites: seq<Suite>)
    requires suites != []
    ensures FromSuites(t, target, suites) <==>
            || FromSuites(t, target, suites[..|suites| - 1])
            || (t.target == target && ComesFrom(t, suites[|suites| - 1]))
  {
    hide ComesFrom;
    var front := suites[..|suites| - 1];
    if k :| 0 <= k < |suites| && ComesFrom(t, suites[k]) { assert k < |front| ==> ComesFrom(t, front[k]); }
    if k :| 0 <= k < |front| && ComesFrom(t, front[k]) { assert ComesFrom(t, suites[k]); }
  }

  lemma {:induction false} BatchTagOrigin(target: string, suites: seq<Suite>, t: Tagged)
    requires AllReturn(suites)
    ensures t in BatchTags(target, suites) <==> FromSuites(t, target, suites)
  {
    if suites != [] {
      var (last, front) := (suites[|suites| - 1], suites[..|suites| - 1]);
      BatchTagOrigin(target, front, t);
      SuiteTagOrigin(target, last, t);
      FromSuitesSplit(t, target, suites);
      assert BatchTags(target, suites) == BatchTags(target, front) + SuiteTags(target, last);
      hide ComesFrom, SuiteTags, BatchTags, FromSuites, Outcome;
    }
  }

  lemma SuiteTagOrigin(target: string, s: Suite, t: Tagged)
    requires Outcome(s).Ok?
    ensures t in SuiteTags(target, s) <==> t.target == target && ComesFrom(t, s)
  {
    var ds := DiagnosticsOf(Outcome(s).value);
    hide DiagnosticsOf, Outcome;
    if t.target == target && ComesFrom(t, s) {
      var k :| 0 <= k < |ds| && ds[k] == t.diagnostic;
      assert SuiteTags(target, s)[k] == t;
    }
  }

  ghost predicate FromBatches(t: Tagged, batches: seq<Batch>) {
    exists i :: 0 <= i < |batches| && FromSuites(t, batches[i].target, batches[i].suites)
  }

  lemma FromBatchesSplit(t: Tagged, batches: seq<Batch>)
    requires batches != []
    ensures var last := batches[|batches| - 1];
            FromBatches(t, batches) <==>
            FromBatches(t, batches[..|batches| - 1]) || FromSuites(t, last.target, last.suites)
  {
    hide FromSuites;
    var (front, last) := (batches[..|batches| - 1], batches[|batches| - 1]);
    if i :| 0 <= i < |batches| && FromSuites(t, batches[i].target, batches[i].suites) {
      assert i < |front| ==> FromSuites(t, front[i].target, front[i].suites);
    }
    if i :| 0 <= i < |front| && FromSuites(t, front[i].target, front[i].suites) {
      assert FromSuites(t, batches[i].target, batches[i].suites);
    }
    if FromSuites(t, last.target, last.suites) {
      var i := |batches| - 1;
      assert FromSuites(t, batches[i].target, batches[i].suites);
    }
  }

  /** The diagnostics of a run are exactly those of its suites, each with the target and the suite it comes
      from. */
  lemma {:induction false} TagOrigin(batches: seq<Batch>, t: Tagged)
    requires AllRun(batches)
    ensures t in AllTags(batches) <==> FromBatches(t, batches)
  {
    if batches != [] {
      var (last, front) := (batches[|batches| - 1], batches[..|batches| - 1]);
      assert BatchRuns(last);
      BatchTagOrigin(last.target, last.suites, t);
      TagOrigin(front, t);
      FromBatchesSplit(t, batches);
      assert AllTags(batches) == AllTags(front) + BatchTags(last.target, last.suites);
      hide ComesFrom, AllTags, BatchTags, FromSuites, FromBatches, BatchRuns;
    }
  }
}
