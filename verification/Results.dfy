/** Rebuilding the rule results of a suite from what the evaluator recorded. */
module Results {
  import opened Text
  import opened Expectations
  import opened Evaluation

  /** One entry of the reported summary. */
  datatype Entry = Entry(
    index: nat, passed: bool, checked: int, failed: Option<int>, succeeded: Option<int>, filteredOut: int,
    diagnostics: seq<Diagnostic>)

  function WithIndex(ds: seq<Diagnostic>, i: nat): (r: seq<Diagnostic>) {
    if ds == [] then [] else (if ds[0].index == i then [ds[0]] else []) + WithIndex(ds[1..], i)
  }

  /** The last recorded result with an index, as a dictionary built in order holds it. */
  function LastWithIndex(rs: seq<RuleResult>, i: nat): (r: Option<RuleResult>) {
    if rs == [] then None
    else if rs[|rs| - 1].index == i then Some(rs[|rs| - 1])
    else LastWithIndex(rs[..|rs| - 1], i)
  }

  function BuildEntry(i: nat, ds: seq<Diagnostic>, evaluated: Option<RuleResult>, recordsChecked: nat): (e: Entry) {
    match evaluated
    case None => Entry(i, ds == [], recordsChecked, None, None, 0, ds)
    case Some(r) =>
      var succeeded :=
        if r.succeeded.None? && r.failed.Some?
        then Some(if r.checked - r.failed.value > 0 then r.checked - r.failed.value else 0)
        else r.succeeded;
      Entry(i, r.passed, r.checked, r.failed, succeeded, r.filteredOut, ds)
  }

  function EntryAt(i: nat, ds: seq<Diagnostic>, rs: seq<RuleResult>, recordsChecked: nat): (e: Entry) {
    BuildEntry(i, WithIndex(ds, i), LastWithIndex(rs, i), recordsChecked)
  }

  lemma {:induction false} WithIndexConcat(a: seq<Diagnostic>, b: seq<Diagnostic>, i: nat)
    ensures WithIndex(a + b, i) == WithIndex(a, i) + WithIndex(b, i)
  {
    if a == [] {
      assert a + b == b;
    } else {
      var (head, rest) := (if a[0].index == i then [a[0]] else [], a[1..]);
      assert (a + b)[0] == a[0] && (a + b)[1..] == rest + b;
      assert WithIndex(a + b, i) == head + WithIndex(rest + b, i) && WithIndex(a, i) == head + WithIndex(rest, i);
      WithIndexConcat(rest, b, i);
      hide WithIndex;
      assert head + (WithIndex(rest, i) + WithIndex(b, i)) == head + WithIndex(rest, i) + WithIndex(b, i);
    }
  }

  lemma WithIndexAppend(ds: seq<Diagnostic>, d: Diagnostic, i: nat)
    ensures WithIndex(ds + [d], i) == WithIndex(ds, i) + if d.index == i then [d] else []
  {
    WithIndexConcat(ds, [d], i);
    assert [d][1..] == [];
  }

  /** The dictionary holds the diagnostics of each index that has some. */
  ghost predicate Groups(byIndex: map<nat, seq<Diagnostic>>, ds: seq<Diagnostic>) {
    forall i: nat :: WithIndex(ds, i) == if i in byIndex then byIndex[i] else []
  }

  lemma GroupStep(byIndex: map<nat, seq<Diagnostic>>, ds: seq<Diagnostic>, d: Diagnostic)
    requires Groups(byIndex, ds)
    ensures Groups(byIndex[d.index := (if d.index in byIndex then byIndex[d.index] else []) + [d]], ds + [d])
  {
    forall i: nat
      ensures WithIndex(ds + [d], i) == WithIndex(ds, i) + if d.index == i then [d] else []
    {
      WithIndexAppend(ds, d, i);
    }
    hide WithIndex;
  }

  method DiagnosticsByIndex(diagnostics: seq<Diagnostic>) returns (byIndex: map<nat, seq<Diagnostic>>)
    ensures Groups(byIndex, diagnostics)
  {
    byIndex := map[];
    assert Groups(byIndex, diagnostics[..0]);
    hide Groups;
    for k := 0 to |diagnostics|
      invariant Groups(byIndex, diagnostics[..k])
    {
      var d := diagnostics[k];
      assert diagnostics[..k + 1] == diagnostics[..k] + [d];
      GroupStep(byIndex, diagnostics[..k], d);
      byIndex := byIndex[d.index := (if d.index in byIndex then byIndex[d.index] else []) + [d]];
    }
    assert diagnostics[..|diagnostics|] == diagnostics;
  }

  method EvaluatedByIndex(results: seq<RuleResult>) returns (byIndex: map<nat, RuleResult>)
    ensures forall i: nat :: LastWithIndex(results, i) == if i in byIndex then Some(byIndex[i]) else None
  {
    byIndex := map[];
    for k := 0 to |results|
      invariant forall i: nat :: LastWithIndex(results[..k], i) == if i in byIndex then Some(byIndex[i]) else None
    {
      var r := results[k];
      assert results[..k + 1][..k] == results[..k];
      byIndex := byIndex[r.index := r];
    }
    assert results[..|results|] == results;
  }

  method BuildRuleResults(n: nat, diagnostics: seq<Diagnostic>, recordsChecked: nat, evaluatedResults: seq<RuleResult>)
    returns (entries: seq<Entry>)
    ensures |entries| == n
    ensures forall i :: 0 <= i < n ==> entries[i] == EntryAt(i, diagnostics, evaluatedResults, recordsChecked)
  {
    hide WithIndex, LastWithIndex;
    var byIndex := DiagnosticsByIndex(diagnostics);
    var evaluatedByIndex := EvaluatedByIndex(evaluatedResults);
    entries := [];
    for index := 0 to n
      invariant |entries| == index
      invariant forall i :: 0 <= i < index ==> entries[i] == EntryAt(i, diagnostics, evaluatedResults, recordsChecked)
    {
      var failedDiagnostics := if index in byIndex then byIndex[index] else [];
      var evaluated := if index in evaluatedByIndex then Some(evaluatedByIndex[index]) else None;
      entries := entries + [BuildEntry(index, failedDiagnostics, evaluated, recordsChecked)];
    }
  }

  // ---------------------------------------------------------------------------
  // The rebuilt summary tells what the evaluator found
  // ---------------------------------------------------------------------------

  /** The judgements are those of the expectations from `offset` on. */
  ghost predicate CoherentFrom(js: seq<Judged>, offset: nat) {
    forall k :: 0 <= k < |js| ==> Coherent(js[k], offset + k)
  }

  lemma CoherentTail(js: seq<Judged>, offset: nat)
    requires js != [] && CoherentFrom(js, offset)
    ensures Coherent(js[0], offset) && CoherentFrom(js[1..], offset + 1)
  {
    hide Coherent;
    assert Coherent(js[0], offset + 0);
    forall k | 0 <= k < |js[1..]| ensures Coherent(js[1..][k], offset + 1 + k) {
      assert Coherent(js[k + 1], offset + (k + 1));
    }
  }

  lemma {:induction false} OwnDiagnostics(js: seq<Judged>, offset: nat, i: nat)
    requires CoherentFrom(js, offset)
    ensures WithIndex(DiagnosticsOf(js), i) == if offset <= i < offset + |js| then js[i - offset].diagnostics else []
  {
    hide CoherentFrom;
    if js != [] {
      CoherentTail(js, offset);
      AllOrNone(js[0].diagnostics, offset, i);
      hide Coherent, WithIndex;
      OwnDiagnostics(js[1..], offset + 1, i);
      WithIndexConcat(js[0].diagnostics, DiagnosticsOf(js[1..]), i);
    }
  }

  lemma {:induction false} AllOrNone(ds: seq<Diagnostic>, owner: nat, i: nat)
    requires forall d :: d in ds ==> d.index == owner
    ensures WithIndex(ds, i) == if i == owner then ds else []
  {
    if ds != [] {
      assert ds[0] in ds;
      AllOrNone(ds[1..], owner, i);
    }
  }

  lemma {:induction false} OwnResult(js: seq<Judged>, i: nat)
    requires AllCoherent(js)
    ensures LastWithIndex(ResultsOf(js), i) == if i < |js| then js[i].result else None
  {
    if js != [] {
      var (front, last) := (js[..|js| - 1], js[|js| - 1]);
      forall k | 0 <= k < |front| ensures Coherent(front[k], k) { assert front[k] == js[k]; }
      OwnResult(front, i);
      assert js == front + [last];
      ResultsAppend(front, last);
      assert Coherent(js[|js| - 1], |js| - 1);
      var rs := ResultsOf(js);
      if last.result.Some? {
        assert rs[..|rs| - 1] == ResultsOf(front);
      } else {
        assert rs == ResultsOf(front);
      }
    }
  }

  /** Each rebuilt entry carries its expectation's own verdict and diagnostics, also for the kinds
      that record no result. */
  lemma EntryVerdict(js: seq<Judged>, i: nat, rowCount: nat)
    requires AllCoherent(js) && i < |js|
    ensures var e := EntryAt(i, DiagnosticsOf(js), ResultsOf(js), rowCount);
            e.index == i && e.passed == js[i].passed && e.diagnostics == js[i].diagnostics
  {
    hide WithIndex, LastWithIndex, DiagnosticsOf, ResultsOf;
    OwnDiagnostics(js, 0, i);
    OwnResult(js, i);
    assert Coherent(js[i], i);
  }

  function PassedEntries(es: seq<Entry>): (n: nat) {
    if es == [] then 0 else (if es[0].passed then 1 else 0) + PassedEntries(es[1..])
  }

  lemma {:induction false} SamePassed(es: seq<Entry>, js: seq<Judged>)
    requires |es| == |js| && forall i :: 0 <= i < |js| ==> es[i].passed == js[i].passed
    ensures PassedEntries(es) == PassedCount(js)
  {
    if js != [] {
      assert forall i :: 0 <= i < |js[1..]| ==> es[1..][i] == es[i + 1] && js[1..][i] == js[i + 1];
      SamePassed(es[1..], js[1..]);
    }
  }

  /** The summary that is reported for an evaluated suite. */
  ghost predicate Rebuilds(env: Env, js: seq<Judged>, entries: seq<Entry>) {
    && |entries| == |js|
    && forall i :: 0 <= i < |js| ==>
         entries[i] == EntryAt(i, Summarized(env, js).diagnostics, Summarized(env, js).summary.ruleResults, |env.rows|)
  }

  /** The rebuilt summary has one entry per expectation, in order, with its own verdict, and as
      many passed entries as the evaluator counted. */
  lemma RebuiltSummary(env: Env, es: seq<Expectation>, entries: seq<Entry>)
    requires JudgeAll(env, es).Ok? && Rebuilds(env, JudgeAll(env, es).value, entries)
    ensures |entries| == |es|
    ensures forall i :: 0 <= i < |es| ==>
              entries[i].index == i && entries[i].passed == JudgeAll(env, es).value[i].passed
    ensures PassedEntries(entries) == Summarized(env, JudgeAll(env, es).value).summary.passed
  {
    var js := JudgeAll(env, es).value;
    JudgedAllCoherent(env, es);
    VerdictsKept(env, js, entries);
    SamePassed(entries, js);
  }

  lemma VerdictsKept(env: Env, js: seq<Judged>, entries: seq<Entry>)
    requires AllCoherent(js) && Rebuilds(env, js, entries)
    ensures forall i :: 0 <= i < |js| ==> entries[i].index == i && entries[i].passed == js[i].passed
  {
    forall i | 0 <= i < |js| ensures entries[i].index == i && entries[i].passed == js[i].passed {
      EntryVerdict(js, i, |env.rows|);
    }
  }

  lemma RecordedTogether(env: Env, es: seq<Expectation>, k: nat)
    requires k < |es| && JudgeAll(env, es).Ok?
    ensures var j := JudgeAll(env, es).value[k];
            j.result.Some? ==> (j.result.value.succeeded.Some? <==> j.result.value.failed.Some?)
  {
    JudgedWith(env, es, k);
    hide JudgeAll, Judge;
    if JudgeAll(env, es).value[k].result.Some? {
      ResultShape(env, es[k], k, Scoped(env, es[k]), UsedCount(env, es, k));
    }
  }

  /** The counts of a rebuilt entry are those its expectation recorded; an entry without a recorded result
      has no counts but the size of the whole frame. */
  lemma EntryCounts(js: seq<Judged>, i: nat, rowCount: nat)
    requires AllCoherent(js) && i < |js|
    requires js[i].result.Some? ==> (js[i].result.value.succeeded.Some? <==> js[i].result.value.failed.Some?)
    ensures var e := EntryAt(i, DiagnosticsOf(js), ResultsOf(js), rowCount);
            match js[i].result
            case Some(r) =>
              && e.checked == r.checked && e.failed == r.failed && e.succeeded == r.succeeded
              && e.filteredOut == r.filteredOut
            case None => e.checked == rowCount && e.failed == None && e.succeeded == None && e.filteredOut == 0
  {
    hide WithIndex, LastWithIndex, DiagnosticsOf, ResultsOf;
    OwnResult(js, i);
  }

  /** The entry rebuilt for expectation `i`, by what its judgement recorded. */
  lemma RebuiltEntry(env: Env, es: seq<Expectation>, i: nat) returns (e: Entry)
    requires JudgeAll(env, es).Ok? && i < |es|
    ensures var js := JudgeAll(env, es).value;
            && e == EntryAt(i, DiagnosticsOf(js), ResultsOf(js), |env.rows|)
            && (js[i].result.Some? ==>
                  && e.checked == js[i].result.value.checked && e.failed == js[i].result.value.failed
                  && e.succeeded == js[i].result.value.succeeded && e.filteredOut == js[i].result.value.filteredOut)
            && (js[i].result.None? ==>
                  e.checked == |env.rows| && e.failed == None && e.succeeded == None && e.filteredOut == 0)
  {
    var js := JudgeAll(env, es).value;
    JudgedAllCoherent(env, es);
    RecordedTogether(env, es, i);
    hide JudgeAll, EntryAt, AllCoherent, DiagnosticsOf, ResultsOf;
    EntryCounts(js, i, |env.rows|);
    e := EntryAt(i, DiagnosticsOf(js), ResultsOf(js), |env.rows|);
  }

  /** When frames that ask for a count under one identity have the same size, the counts of an entry
      are about its own frame: failed plus succeeded is checked, and checked plus filtered-out is the
      whole frame. An entry without a recorded result has only the size of the whole frame. */
  lemma RebuiltCounts(env: Env, es: seq<Expectation>, i: nat)
    requires JudgeAll(env, es).Ok? && AskedSizesAgree(env, es) && i < |es|
    ensures var js := JudgeAll(env, es).value;
            var e := EntryAt(i, DiagnosticsOf(js), ResultsOf(js), |env.rows|);
            && (js[i].result.Some? ==> e.checked == |Scoped(env, es[i])|)
            && (js[i].result.None? ==> e.checked == |env.rows| && e.failed == None && e.succeeded == None)
            && e.checked + e.filteredOut == |env.rows|
            && (e.failed.Some? ==> e.succeeded.Some? && e.failed.value + e.succeeded.value == e.checked)
            && (e.failed.Some? ==> e.succeeded.value >= 0)
  {
    var e := RebuiltEntry(env, es, i);
    RecordedCounts(env, es, i);
    hide *;
  }

  /** Under the same condition the failed records of a null-free row-wise entry are the violating rows of its
      frame, and the succeeded ones all others. */
  lemma RebuiltFailures(env: Env, es: seq<Expectation>, i: nat)
    requires JudgeAll(env, es).Ok? && AskedSizesAgree(env, es) && i < |es|
    requires IsRowWise(es[i].kind) && NullFree(es[i].kind) && JudgeAll(env, es).value[i].result.Some?
    ensures var js := JudgeAll(env, es).value;
            var e := EntryAt(i, DiagnosticsOf(js), ResultsOf(js), |env.rows|);
            var violating := |ViolatingRows(env, es[i])|;
            e.failed == Some(violating) && e.succeeded == Some(|Scoped(env, es[i])| - violating)
  {
    hide *;
    var e := RebuiltEntry(env, es, i);
    RecordedFailures(env, es, i);
  }
}
