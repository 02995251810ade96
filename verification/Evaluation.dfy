/** The evaluation loop over a suite of expectations: counters, diagnostics, rule results and the
    row-count cache keyed by frame identity. */
module Evaluation {
  import opened Text
  import opened Sql
  import opened SparkRows
  import opened Expectations

  type Cache = map<int, nat>

  function Lookup(cache: Cache, id: int, actual: nat): (n: nat) { if id in cache then cache[id] else actual }

  /** The judgements of the expectations from `i` on, in order; the first error aborts them all. */
  function JudgeFrom(env: Env, es: seq<Expectation>, i: nat, cache: Cache): (r: Result<seq<Judged>>)
    requires i <= |es|
    ensures r.Ok? ==> |r.value| == |es| - i
    decreases |es| - i
  {
    if i == |es| then Ok([])
    else
      var scoped := Scoped(env, es[i]);
      var id := ScopedId(env, es[i], i);
      var count := Lookup(cache, id, |scoped|);
      match Judge(env, es[i], i, scoped, count)
      case Err(e) => Err(e)
      case Ok(j) =>
        match JudgeFrom(env, es, i + 1, if j.counted then cache[id := count] else cache)
        case Err(e) => Err(e)
        case Ok(rest) => Ok([j] + rest)
  }

  function JudgeAll(env: Env, es: seq<Expectation>): (r: Result<seq<Judged>>)
    ensures r.Ok? ==> |r.value| == |es|
  {
    JudgeFrom(env, es, 0, map[env.frameId := |env.rows|])
  }

  // ---------------------------------------------------------------------------
  // The summary
  // ---------------------------------------------------------------------------

  datatype Summary = Summary(
    rowCount: nat, expectationCount: nat, passed: nat, failed: nat, ruleResults: seq<RuleResult>)

  datatype Evaluated = Evaluated(ok: bool, summary: Summary, diagnostics: seq<Diagnostic>)

  function PassedCount(js: seq<Judged>): (n: nat)
    ensures n <= |js|
  {
    if js == [] then 0 else (if js[0].passed then 1 else 0) + PassedCount(js[1..])
  }

  function ResultsOf(js: seq<Judged>): (rs: seq<RuleResult>) {
    if js == [] then [] else (if js[0].result.Some? then [js[0].result.value] else []) + ResultsOf(js[1..])
  }

  function DiagnosticsOf(js: seq<Judged>): (ds: seq<Diagnostic>) {
    if js == [] then [] else js[0].diagnostics + DiagnosticsOf(js[1..])
  }

  function Summarized(env: Env, js: seq<Judged>): (r: Evaluated) {
    var passed := PassedCount(js);
    Evaluated(passed == |js|, Summary(|env.rows|, |js|, passed, |js| - passed, ResultsOf(js)), DiagnosticsOf(js))
  }

  lemma {:induction false} PassedAppend(js: seq<Judged>, j: Judged)
    ensures PassedCount(js + [j]) == PassedCount(js) + if j.passed then 1 else 0
  {
    if js == [] {
      assert js + [j] == [j] && [j][1..] == [];
    } else {
      assert (js + [j])[1..] == js[1..] + [j];
      PassedAppend(js[1..], j);
    }
  }

  lemma {:induction false} ResultsAppend(js: seq<Judged>, j: Judged)
    ensures ResultsOf(js + [j]) == ResultsOf(js) + if j.result.Some? then [j.result.value] else []
  {
    if js == [] {
      assert js + [j] == [j] && [j][1..] == [];
    } else {
      var rest := js[1..];
      assert (js + [j])[0] == js[0] && (js + [j])[1..] == rest + [j];
      ResultsAppend(rest, j);
      var head := if js[0].result.Some? then [js[0].result.value] else [];
      var tail := if j.result.Some? then [j.result.value] else [];
      assert ResultsOf(js + [j]) == head + ResultsOf(rest + [j]) && ResultsOf(js) == head + ResultsOf(rest);
      hide ResultsOf;
      assert head + (ResultsOf(rest) + tail) == head + ResultsOf(rest) + tail;
    }
  }

  lemma {:induction false} DiagnosticsAppend(js: seq<Judged>, j: Judged)
    ensures DiagnosticsOf(js + [j]) == DiagnosticsOf(js) + j.diagnostics
  {
    if js == [] {
      assert js + [j] == [j] && [j][1..] == [];
    } else {
      var rest := js[1..];
      assert (js + [j])[0] == js[0] && (js + [j])[1..] == rest + [j];
      DiagnosticsAppend(rest, j);
      var (head, tail) := (js[0].diagnostics, j.diagnostics);
      assert DiagnosticsOf(js + [j]) == head + DiagnosticsOf(rest + [j]);
      assert DiagnosticsOf(js) == head + DiagnosticsOf(rest);
      hide DiagnosticsOf;
      assert head + (DiagnosticsOf(rest) + tail) == head + DiagnosticsOf(rest) + tail;
    }
  }

  ghost function After(done: seq<Judged>, rest: Result<seq<Judged>>): (r: Result<seq<Judged>>) {
    if rest.Ok? then Ok(done + rest.value) else rest
  }

  /** One turn of the loop peels one judgement off the specification. */
  lemma JudgeStep(env: Env, es: seq<Expectation>, i: nat, cache: Cache, done: seq<Judged>, judged: Result<Judged>,
                  next: Cache)
    requires i < |es|
    requires var (scoped, id) := (Scoped(env, es[i]), ScopedId(env, es[i], i));
             judged == Judge(env, es[i], i, scoped, Lookup(cache, id, |scoped|))
    requires judged.Ok? ==>
      var id := ScopedId(env, es[i], i);
      next == if judged.value.counted then cache[id := Lookup(cache, id, |Scoped(env, es[i])|)] else cache
    ensures judged.Err? ==> After(done, JudgeFrom(env, es, i, cache)) == Err(judged.message)
    ensures judged.Ok? ==>
      After(done, JudgeFrom(env, es, i, cache)) == After(done + [judged.value], JudgeFrom(env, es, i + 1, next))
  {
    hide Judge, Scoped, ScopedId;
    if judged.Ok? && JudgeFrom(env, es, i + 1, next).Ok? {
      var rest := JudgeFrom(env, es, i + 1, next).value;
      assert done + ([judged.value] + rest) == (done + [judged.value]) + rest;
    }
  }

  lemma JudgeEnds(env: Env, es: seq<Expectation>, cache: Cache, done: seq<Judged>)
    ensures After(done, JudgeFrom(env, es, |es|, cache)) == Ok(done)
    ensures JudgeAll(env, es) == After([], JudgeFrom(env, es, 0, map[env.frameId := |env.rows|]))
  {
    hide Judge, Scoped, ScopedId;
    assert done + [] == done;
    var all := JudgeAll(env, es);
    assert all.Ok? ==> [] + all.value == all.value;
  }

  method EvaluateExpectations(env: Env, es: seq<Expectation>) returns (r: Result<Evaluated>)
    ensures JudgeAll(env, es).Err? ==> r == Err(JudgeAll(env, es).message)
    ensures JudgeAll(env, es).Ok? ==> r == Ok(Summarized(env, JudgeAll(env, es).value))
  {
    hide Judge, Scoped, ScopedId, JudgeFrom, After, JudgeAll;
    var diagnostics: seq<Diagnostic> := [];
    var ruleResults: seq<RuleResult> := [];
    var passed, failed := 0, 0;
    var rowCounts: Cache := map[env.frameId := |env.rows|];
    ghost var done: seq<Judged> := [];
    ghost var all := JudgeAll(env, es);
    JudgeEnds(env, es, rowCounts, done);
    for idx := 0 to |es|
      invariant |done| == idx
      invariant passed == PassedCount(done) && failed == idx - passed
      invariant ruleResults == ResultsOf(done) && diagnostics == DiagnosticsOf(done)
      invariant all == After(done, JudgeFrom(env, es, idx, rowCounts))
    {
      hide PassedCount, ResultsOf, DiagnosticsOf;
      var scoped := Scoped(env, es[idx]);
      var id := ScopedId(env, es[idx], idx);
      var count := Lookup(rowCounts, id, |scoped|);
      var judged := Judge(env, es[idx], idx, scoped, count);
      ghost var next := if judged.Ok? && judged.value.counted then rowCounts[id := count] else rowCounts;
      JudgeStep(env, es, idx, rowCounts, done, judged, next);
      if judged.Err? {
        return Err(judged.message);
      }
      var j := judged.value;
      PassedAppend(done, j);
      ResultsAppend(done, j);
      DiagnosticsAppend(done, j);
      if j.counted {
        rowCounts := rowCounts[id := count];
      }
      if j.passed {
        passed := passed + 1;
      } else {
        failed := failed + 1;
      }
      if j.result.Some? {
        ruleResults := ruleResults + [j.result.value];
      }
      diagnostics := diagnostics + j.diagnostics;
      done := done + [j];
    }
    JudgeEnds(env, es, rowCounts, done);
    r := Ok(Evaluated(failed == 0, Summary(|env.rows|, |es|, passed, failed, ruleResults), diagnostics));
  }

  // ---------------------------------------------------------------------------
  // Counters and diagnostics agree
  // ---------------------------------------------------------------------------

  /** The first judgement and the rest of a suite that returns. */
  lemma JudgeHead(env: Env, es: seq<Expectation>, i: nat, cache: Cache) returns (count: nat, next: Cache)
    requires i < |es| && JudgeFrom(env, es, i, cache).Ok?
    ensures count == Lookup(cache, ScopedId(env, es[i], i), |Scoped(env, es[i])|)
    ensures var j := Judge(env, es[i], i, Scoped(env, es[i]), count);
            && j.Ok? && next == (if j.value.counted then cache[ScopedId(env, es[i], i) := count] else cache)
            && JudgeFrom(env, es, i + 1, next).Ok?
            && JudgeFrom(env, es, i, cache).value == [j.value] + JudgeFrom(env, es, i + 1, next).value
  {
    hide Judge, Scoped, ScopedId;
    count := Lookup(cache, ScopedId(env, es[i], i), |Scoped(env, es[i])|);
    next := cache;
    var j := Judge(env, es[i], i, Scoped(env, es[i]), count);
    if j.Ok? && j.value.counted { next := cache[ScopedId(env, es[i], i) := count]; }
  }

  lemma {:induction false} JudgedAreCoherent(env: Env, es: seq<Expectation>, i: nat, cache: Cache, k: nat)
    requires i <= k < |es| && JudgeFrom(env, es, i, cache).Ok?
    ensures Coherent(JudgeFrom(env, es, i, cache).value[k - i], k)
    decreases |es| - i
  {
    hide Judge, Coherent, JudgeFrom, Scoped, ScopedId;
    var count, next := JudgeHead(env, es, i, cache);
    JudgeCoherent(env, es[i], i, Scoped(env, es[i]), count);
    if k > i { JudgedAreCoherent(env, es, i + 1, next, k); }
  }

  lemma {:induction false} DiagnosticOwner(js: seq<Judged>, d: Diagnostic)
    ensures d in DiagnosticsOf(js) <==> exists k :: 0 <= k < |js| && d in js[k].diagnostics
  {
    if js != [] {
      DiagnosticOwner(js[1..], d);
      if k :| 0 <= k < |js| && d in js[k].diagnostics {
        if k > 0 { assert d in js[1..][k - 1].diagnostics; }
      }
      if k :| 0 <= k < |js[1..]| && d in js[1..][k].diagnostics { assert d in js[k + 1].diagnostics; }
    }
  }

  lemma {:induction false} AllPassed(js: seq<Judged>)
    ensures PassedCount(js) == |js| <==> forall k :: 0 <= k < |js| ==> js[k].passed
  {
    if js != [] {
      AllPassed(js[1..]);
      if forall k :: 0 <= k < |js| ==> js[k].passed {
        forall k | 0 <= k < |js[1..]| ensures js[1..][k].passed { assert js[k + 1].passed; }
      }
      if PassedCount(js) == |js| {
        forall k | 0 <= k < |js| ensures js[k].passed { if k > 0 { assert js[1..][k - 1].passed; } }
      }
    }
  }

  ghost predicate AllCoherent(js: seq<Judged>) { forall i :: 0 <= i < |js| ==> Coherent(js[i], i) }

  lemma IndexHasDiagnostic(js: seq<Judged>, k: nat)
    requires AllCoherent(js)
    ensures (exists d :: d in DiagnosticsOf(js) && d.index == k) <==> k < |js| && !js[k].passed
  {
    hide DiagnosticsOf;
    if k < |js| && !js[k].passed {
      DiagnosticOwner(js, js[k].diagnostics[0]);
      assert js[k].diagnostics[0] in DiagnosticsOf(js);
    }
    if d :| d in DiagnosticsOf(js) && d.index == k {
      DiagnosticOwner(js, d);
    }
  }

  lemma NoDiagnosticIffAllPassed(js: seq<Judged>)
    requires AllCoherent(js)
    ensures DiagnosticsOf(js) == [] <==> PassedCount(js) == |js|
  {
    hide DiagnosticsOf, PassedCount;
    AllPassed(js);
    if PassedCount(js) != |js| {
      var i :| 0 <= i < |js| && !js[i].passed;
      IndexHasDiagnostic(js, i);
    } else if DiagnosticsOf(js) != [] {
      var d := DiagnosticsOf(js)[0];
      DiagnosticOwner(js, d);
    }
  }

  lemma JudgedAllCoherent(env: Env, es: seq<Expectation>)
    requires JudgeAll(env, es).Ok?
    ensures AllCoherent(JudgeAll(env, es).value)
  {
    hide JudgeFrom, Coherent;
    forall i: nat | i < |es| ensures Coherent(JudgeAll(env, es).value[i], i) {
      JudgedAreCoherent(env, es, 0, map[env.frameId := |env.rows|], i);
    }
  }

  /** The expectations that passed, by position. */
  function PassedAt(js: seq<Judged>): (r: set<nat>) { set k: nat | k < |js| && js[k].passed }

  lemma PassedAtAppend(js: seq<Judged>, j: Judged)
    ensures PassedAt(js + [j]) == PassedAt(js) + if j.passed then {|js|} else {}
    ensures |PassedAt(js + [j])| == |PassedAt(js)| + if j.passed then 1 else 0
  {
    var (all, before) := (PassedAt(js + [j]), PassedAt(js));
    forall k: nat ensures k in all <==> k in before || (k == |js| && j.passed) {}
    assert all == before + if j.passed then {|js|} else {};
    assert |js| !in before;
    hide PassedAt;
  }

  lemma {:induction false} PassedCounts(js: seq<Judged>)
    ensures PassedCount(js) == |PassedAt(js)|
  {
    if js == [] {
      assert PassedAt(js) == {};
    } else {
      var (front, j) := (js[..|js| - 1], js[|js| - 1]);
      assert js == front + [j];
      hide PassedCount, PassedAt;
      PassedCounts(front);
      PassedAppend(front, j);
      PassedAtAppend(front, j);
    }
  }

  /** On normal return the counters add up, an index has a diagnostic iff its expectation failed,
      and the overall flag is true iff there is no diagnostic at all. */
  lemma SummaryMeaning(env: Env, es: seq<Expectation>, k: nat)
    requires JudgeAll(env, es).Ok?
    ensures var js := JudgeAll(env, es).value;
            var r := Summarized(env, js);
            && r.summary.passed + r.summary.failed == r.summary.expectationCount == |es|
            && r.summary.passed == |PassedAt(js)| && r.summary.rowCount == |env.rows|
            && (r.ok <==> r.diagnostics == [])
            && ((exists d :: d in r.diagnostics && d.index == k) <==> k < |es| && !js[k].passed)
  {
    hide JudgeFrom, DiagnosticsOf, PassedCount, ResultsOf, AllCoherent;
    JudgedAllCoherent(env, es);
    NoDiagnosticIffAllPassed(JudgeAll(env, es).value);
    PassedCounts(JudgeAll(env, es).value);
    IndexHasDiagnostic(JudgeAll(env, es).value, k);
  }

  // ---------------------------------------------------------------------------
  // Which count each expectation uses
  // ---------------------------------------------------------------------------

  predicate HasColumns(env: Env, e: Expectation) {
    e.column in env.columns && forall n :: n in OtherColumns(e.kind) ==> n in env.columns
  }

  /** The expectation asks for the row count of its frame. */
  predicate Asks(env: Env, e: Expectation) {
    match e.kind
    case RowCountBetween(_, _) => true
    case CompoundUnique(_) => false
    case QueryMatch(_) => false
    case _ => HasColumns(env, e)
  }

  /** Asking is what touches the cache; whoever does not ask does not depend on the count; and every
      kind but the row count itself records what it was told. */
  lemma AsksExactly(env: Env, e: Expectation, index: nat, scoped: seq<Row>, count: nat, other: nat)
    requires Judge(env, e, index, scoped, count).Ok?
    ensures var j := Judge(env, e, index, scoped, count).value;
            && (j.counted <==> Asks(env, e))
            && (!Asks(env, e) ==> Judge(env, e, index, scoped, other) == Ok(j))
            && (j.result.Some? <==> Asks(env, e) && !e.kind.RowCountBetween?)
            && (j.result.Some? ==> j.result.value.checked == count)
  {
    hide HasDuplicate, FailureDiagnostics, FirstIdentifier, FailureCondition, Where, Proportion;
  }

  /** The size of the first frame that asked for a count under `id`, among the whole frame and those
      of the first `i` expectations. */
  function FirstAsked(env: Env, es: seq<Expectation>, id: int, i: nat): (n: Option<nat>)
    requires i <= |es|
  {
    if id == env.frameId then Some(|env.rows|)
    else if i == 0 then None
    else if FirstAsked(env, es, id, i - 1).Some? then FirstAsked(env, es, id, i - 1)
    else if Asks(env, es[i - 1]) && ScopedId(env, es[i - 1], i - 1) == id then Some(|Scoped(env, es[i - 1])|)
    else None
  }

  /** The count that expectation `k` works with: what an earlier frame of the same identity left in
      the cache, or else the size of its own frame. */
  function UsedCount(env: Env, es: seq<Expectation>, k: nat): (n: nat)
    requires k < |es|
  {
    var first := FirstAsked(env, es, ScopedId(env, es[k], k), k);
    if first.Some? then first.value else |Scoped(env, es[k])|
  }

  ghost predicate CacheIs(env: Env, es: seq<Expectation>, i: nat, cache: Cache)
    requires i <= |es|
  {
    forall id :: FirstAsked(env, es, id, i) == if id in cache then Some(cache[id]) else None
  }

  lemma {:induction false} JudgedFrom(env: Env, es: seq<Expectation>, i: nat, cache: Cache, k: nat)
    requires i <= k < |es| && CacheIs(env, es, i, cache) && JudgeFrom(env, es, i, cache).Ok?
    ensures Judge(env, es[k], k, Scoped(env, es[k]), UsedCount(env, es, k)) ==
            Ok(JudgeFrom(env, es, i, cache).value[k - i])
    decreases |es| - i
  {
    hide Judge, Scoped, ScopedId, Asks, JudgeFrom;
    var count, next := JudgeHead(env, es, i, cache);
    assert count == UsedCount(env, es, i);
    if k > i {
      AsksExactly(env, es[i], i, Scoped(env, es[i]), count, count);
      assert CacheIs(env, es, i + 1, next);
      JudgedFrom(env, es, i + 1, next, k);
    }
  }

  /** Each judgement of a suite is the one made with the size of the first frame that asked for a
      count under the same identity. */
  lemma JudgedWith(env: Env, es: seq<Expectation>, k: nat)
    requires k < |es| && JudgeAll(env, es).Ok?
    ensures Judge(env, es[k], k, Scoped(env, es[k]), UsedCount(env, es, k)) == Ok(JudgeAll(env, es).value[k])
  {
    hide Judge, Scoped, ScopedId, JudgeFrom, Asks;
    var cache: Cache := map[env.frameId := |env.rows|];
    assert CacheIs(env, es, 0, cache);
    JudgedFrom(env, es, 0, cache, k);
  }

  // ---------------------------------------------------------------------------
  // Exactly when the counts are right
  // ---------------------------------------------------------------------------

  /** Any two frames that ask for a count under one identity have the same size; the whole frame always
      asks. */
  ghost predicate AskedSizesAgree(env: Env, es: seq<Expectation>) {
    && (forall i: nat :: i < |es| && Asks(env, es[i]) && ScopedId(env, es[i], i) == env.frameId ==>
          |Scoped(env, es[i])| == |env.rows|)
    && (forall i: nat, j: nat :: i < j < |es| && AskTogether(env, es, i, j) ==>
          |Scoped(env, es[i])| == |Scoped(env, es[j])|)
  }

  predicate AskTogether(env: Env, es: seq<Expectation>, i: nat, j: nat)
    requires i < |es| && j < |es|
  {
    Asks(env, es[i]) && Asks(env, es[j]) && ScopedId(env, es[i], i) == ScopedId(env, es[j], j)
  }

  ghost predicate CountRight(env: Env, es: seq<Expectation>, k: nat)
    requires k < |es|
  {
    UsedCount(env, es, k) == |Scoped(env, es[k])|
  }

  /** A cached size is that of a frame that asked. */
  lemma {:induction false} FirstAskedOrigin(env: Env, es: seq<Expectation>, id: int, i: nat) returns (j: nat)
    requires i <= |es| && id != env.frameId && FirstAsked(env, es, id, i).Some?
    ensures j < i && Asks(env, es[j]) && ScopedId(env, es[j], j) == id
    ensures FirstAsked(env, es, id, i) == Some(|Scoped(env, es[j])|)
  {
    hide Scoped, ScopedId, Asks;
    if FirstAsked(env, es, id, i - 1).Some? {
      j := FirstAskedOrigin(env, es, id, i - 1);
    } else {
      j := i - 1;
    }
  }

  /** The first size stays. */
  lemma {:induction false} FirstAskedStays(env: Env, es: seq<Expectation>, id: int, i: nat, k: nat)
    requires i <= k <= |es| && FirstAsked(env, es, id, i).Some?
    ensures FirstAsked(env, es, id, k) == FirstAsked(env, es, id, i)
  {
    hide Scoped, ScopedId, Asks;
    if i < k { FirstAskedStays(env, es, id, i, k - 1); }
  }

  lemma AgreeingIsRight(env: Env, es: seq<Expectation>, k: nat)
    requires k < |es| && Asks(env, es[k]) && AskedSizesAgree(env, es)
    ensures CountRight(env, es, k)
  {
    hide Scoped, ScopedId, Asks;
    var id := ScopedId(env, es[k], k);
    if id != env.frameId && FirstAsked(env, es, id, k).Some? {
      var j := FirstAskedOrigin(env, es, id, k);
      assert AskTogether(env, es, j, k);
    }
  }

  lemma RightIsAgreeing(env: Env, es: seq<Expectation>, i: nat, j: nat)
    requires i < j < |es| && AskTogether(env, es, i, j)
    requires CountRight(env, es, i) && CountRight(env, es, j)
    ensures |Scoped(env, es[i])| == |Scoped(env, es[j])|
  {
    hide Scoped, ScopedId, Asks;
    var id := ScopedId(env, es[i], i);
    assert FirstAsked(env, es, id, i + 1) == Some(UsedCount(env, es, i));
    FirstAskedStays(env, es, id, i + 1, j);
  }

  /** Every expectation that asks is told the true size of its frame iff any two frames that ask under
      one identity have the same size. */
  lemma CountsRightExactly(env: Env, es: seq<Expectation>)
    ensures (forall k: nat :: k < |es| && Asks(env, es[k]) ==> CountRight(env, es, k)) <==> AskedSizesAgree(env, es)
  {
    if AskedSizesAgree(env, es) {
      forall k: nat | k < |es| && Asks(env, es[k]) ensures CountRight(env, es, k) { AgreeingIsRight(env, es, k); }
    }
    if forall k: nat :: k < |es| && Asks(env, es[k]) ==> CountRight(env, es, k) {
      hide Scoped, ScopedId, Asks;
      forall i: nat | i < |es| && Asks(env, es[i]) && ScopedId(env, es[i], i) == env.frameId
        ensures |Scoped(env, es[i])| == |env.rows|
      {
        assert CountRight(env, es, i);
      }
      forall i: nat, j: nat | i < j < |es| && AskTogether(env, es, i, j)
        ensures |Scoped(env, es[i])| == |Scoped(env, es[j])|
      {
        RightIsAgreeing(env, es, i, j);
      }
    }
  }

  /** The same on what is reported: every recorded number of checked rows is the count that was used,
      and all of them, with the counts that row counts are judged by, are right iff the sizes agree. */
  lemma RecordedExactly(env: Env, es: seq<Expectation>)
    requires JudgeAll(env, es).Ok?
    ensures forall k: nat :: k < |es| && JudgeAll(env, es).value[k].result.Some? ==>
              JudgeAll(env, es).value[k].result.value.checked == UsedCount(env, es, k)
    ensures (forall k: nat :: k < |es| ==> ReportedRight(env, es, k)) <==> AskedSizesAgree(env, es)
  {
    var js := JudgeAll(env, es).value;
    forall k: nat | k < |es|
      ensures js[k].result.Some? <==> Asks(env, es[k]) && !es[k].kind.RowCountBetween?
      ensures js[k].result.Some? ==> js[k].result.value.checked == UsedCount(env, es, k)
    {
      JudgedWith(env, es, k);
      AsksExactly(env, es[k], k, Scoped(env, es[k]), UsedCount(env, es, k), 0);
    }
    CountsRightExactly(env, es);
    assert forall k: nat :: k < |es| && es[k].kind.RowCountBetween? ==> Asks(env, es[k]);
    hide JudgeAll, Scoped, Asks, AskedSizesAgree, UsedCount, FirstAsked, ScopedId;
    assert forall k: nat :: k < |es| ==> (ReportedRight(env, es, k) <==> (Asks(env, es[k]) ==> CountRight(env, es, k)));
  }

  /** What expectation `k` reports about the size of its frame is true. */
  ghost predicate ReportedRight(env: Env, es: seq<Expectation>, k: nat)
    requires k < |es| && JudgeAll(env, es).Ok?
  {
    && (JudgeAll(env, es).value[k].result.Some? ==>
          JudgeAll(env, es).value[k].result.value.checked == |Scoped(env, es[k])|)
    && (es[k].kind.RowCountBetween? ==> CountRight(env, es, k))
  }

  /** When the sizes agree, each judgement is the one made with its frame's true size. */
  lemma JudgedAlone(env: Env, es: seq<Expectation>, k: nat)
    requires k < |es| && AskedSizesAgree(env, es) && JudgeAll(env, es).Ok?
    ensures Judge(env, es[k], k, Scoped(env, es[k]), |Scoped(env, es[k])|) == Ok(JudgeAll(env, es).value[k])
  {
    hide Judge, Scoped, ScopedId, JudgeAll, Asks;
    JudgedWith(env, es, k);
    AsksExactly(env, es[k], k, Scoped(env, es[k]), UsedCount(env, es, k), |Scoped(env, es[k])|);
    if Asks(env, es[k]) { AgreeingIsRight(env, es, k); }
  }

  /** A row count is judged by the count it was told, which is its frame's when the sizes agree. */
  lemma RowCountVerdict(env: Env, es: seq<Expectation>, k: nat, low: int, high: int)
    requires k < |es| && JudgeAll(env, es).Ok? && es[k].kind == RowCountBetween(Some(low), Some(high))
    ensures JudgeAll(env, es).value[k].passed <==> low <= UsedCount(env, es, k) <= high
    ensures AskedSizesAgree(env, es) ==>
            (JudgeAll(env, es).value[k].passed <==> low <= |Scoped(env, es[k])| <= high)
  {
    JudgedWith(env, es, k);
    if AskedSizesAgree(env, es) { AgreeingIsRight(env, es, k); }
    hide JudgeAll, Scoped, UsedCount, AskedSizesAgree;
  }

  // ---------------------------------------------------------------------------
  // Verdicts mean what the data says
  // ---------------------------------------------------------------------------

  /** A row-wise expectation of a suite that returns normally is marked failed iff one of its
      columns is missing or some in-scope row violates it in two-valued terms. */
  lemma FailedIffViolated(env: Env, es: seq<Expectation>, k: nat)
    requires k < |es| && JudgeAll(env, es).Ok? && IsRowWise(es[k].kind) && NullFree(es[k].kind)
    ensures !JudgeAll(env, es).value[k].passed <==>
            !HasColumns(env, es[k]) ||
            exists row :: row in Scoped(env, es[k]) && Violates(env.le, es[k].kind, es[k].column, row)
  {
    hide Scoped, Violates, FailureCondition;
    var e := es[k];
    var scoped := Scoped(env, e);
    JudgedWith(env, es, k);
    VerdictAt(env, e, k, scoped, UsedCount(env, es, k));
  }

  lemma VerdictAt(env: Env, e: Expectation, index: nat, scoped: seq<Row>, count: nat)
    requires IsRowWise(e.kind) && NullFree(e.kind) && Judge(env, e, index, scoped, count).Ok?
    ensures !Judge(env, e, index, scoped, count).value.passed <==>
            !HasColumns(env, e) || exists row :: row in scoped && Violates(env.le, e.kind, e.column, row)
  {
    hide Violates, FailureCondition, FailureDiagnostics, FirstIdentifier;
    var c := FailureCondition(e.kind, e.column);
    FilterNone(scoped, HasTruth(env.le, c, Yes));
    forall row ensures HasTruth(env.le, c, Yes)(row) <==> Violates(env.le, e.kind, e.column, row) {
      FailsExactly(env.le, e.kind, e.column, row);
    }
  }

  /** When the sizes agree, a recorded result counts the violating rows, and its counts partition the
      frame. */
  lemma RecordedCounts(env: Env, es: seq<Expectation>, k: nat)
    requires k < |es| && JudgeAll(env, es).Ok? && AskedSizesAgree(env, es)
    ensures var j := JudgeAll(env, es).value[k];
            j.result.Some? ==>
              var r := j.result.value;
              && r.checked == |Scoped(env, es[k])|
              && r.checked + r.filteredOut == |env.rows|
              && (r.failed.Some? <==> IsRowWise(es[k].kind))
              && (r.failed.Some? ==> r.succeeded.Some? && r.failed.value + r.succeeded.value == r.checked &&
                                     0 <= r.failed.value <= r.checked)
              && (r.failed.Some? && NullFree(es[k].kind) ==>
                    r.failed.value == |Filter(Scoped(env, es[k]), Violating(env.le, es[k]))|)
  {
    JudgedAlone(env, es, k);
    hide JudgeFrom, JudgeAll, Scoped;
    ResultAt(env, es[k], k, Scoped(env, es[k]));
  }

  ghost function Violating(le: Order, e: Expectation): (r: Row -> bool)
    requires IsRowWise(e.kind)
  {
    row => Violates(le, e.kind, e.column, row)
  }

  /** The rows of a frame that violate its expectation. */
  ghost function ViolatingRows(env: Env, e: Expectation): (rows: seq<Row>)
    requires IsRowWise(e.kind)
  {
    Filter(Scoped(env, e), Violating(env.le, e))
  }

  /** What a null-free row-wise expectation records, when the sizes agree. */
  lemma RecordedFailures(env: Env, es: seq<Expectation>, k: nat)
    requires k < |es| && JudgeAll(env, es).Ok? && AskedSizesAgree(env, es)
    requires IsRowWise(es[k].kind) && NullFree(es[k].kind) && JudgeAll(env, es).value[k].result.Some?
    ensures var (r, n) := (JudgeAll(env, es).value[k].result.value, |ViolatingRows(env, es[k])|);
            r.failed == Some(n) && r.succeeded == Some(|Scoped(env, es[k])| - n)
  {
    hide *;
    JudgedAlone(env, es, k);
    ResultNumbers(env, es[k], k);
  }

  lemma ResultNumbers(env: Env, e: Expectation, index: nat)
    requires IsRowWise(e.kind) && NullFree(e.kind) && Judge(env, e, index, Scoped(env, e), |Scoped(env, e)|).Ok?
    requires Judge(env, e, index, Scoped(env, e), |Scoped(env, e)|).value.result.Some?
    ensures var r := Judge(env, e, index, Scoped(env, e), |Scoped(env, e)|).value.result.value;
            && r.failed == Some(|ViolatingRows(env, e)|)
            && r.succeeded == Some(|Scoped(env, e)| - |ViolatingRows(env, e)|)
  {
    FailingAreViolating(env, e, Scoped(env, e));
    assert Where(env.le, Scoped(env, e), FailureCondition(e.kind, e.column)) == ViolatingRows(env, e);
    hide Judge, ViolatingRows, FailureCondition, Scoped, Where, IsRowWise, NullFree;
    ResultShape(env, e, index, Scoped(env, e), |Scoped(env, e)|);
  }

  lemma FailingAreViolating(env: Env, e: Expectation, scoped: seq<Row>)
    requires IsRowWise(e.kind) && NullFree(e.kind)
    ensures Where(env.le, scoped, FailureCondition(e.kind, e.column)) == Filter(scoped, Violating(env.le, e))
  {
    hide Violates, FailureCondition;
    var c := FailureCondition(e.kind, e.column);
    forall row ensures HasTruth(env.le, c, Yes)(row) == Violating(env.le, e)(row) {
      FailsExactly(env.le, e.kind, e.column, row);
    }
    FilterSame(scoped, HasTruth(env.le, c, Yes), Violating(env.le, e));
  }

  /** What a recorded result holds, by the kind of its expectation. */
  lemma ResultShape(env: Env, e: Expectation, index: nat, scoped: seq<Row>, count: nat)
    requires Judge(env, e, index, scoped, count).Ok? && Judge(env, e, index, scoped, count).value.result.Some?
    ensures var r := Judge(env, e, index, scoped, count).value.result.value;
            && (r.failed.Some? <==> IsRowWise(e.kind))
            && (r.failed.Some? ==> r.failed.value == |Where(env.le, scoped, FailureCondition(e.kind, e.column))|)
            && r == BuildRuleResult(index, r.passed, count, r.failed, |env.rows|)
  {
    hide FailureCondition, FailureDiagnostics, FirstIdentifier, HasDuplicate, Proportion, Where;
  }

  lemma ResultAt(env: Env, e: Expectation, index: nat, scoped: seq<Row>)
    requires |scoped| <= |env.rows| && Judge(env, e, index, scoped, |scoped|).Ok?
    ensures var j := Judge(env, e, index, scoped, |scoped|).value;
            j.result.Some? ==>
              var r := j.result.value;
              && r.checked == |scoped| && r.checked + r.filteredOut == |env.rows|
              && (r.failed.Some? <==> IsRowWise(e.kind))
              && (r.failed.Some? ==> r.succeeded.Some? && r.failed.value + r.succeeded.value == r.checked &&
                                     0 <= r.failed.value <= r.checked)
              && (r.failed.Some? && NullFree(e.kind) ==> r.failed.value == |Filter(scoped, Violating(env.le, e))|)
  {
    hide Judge, Filter, FailureCondition, Violating, NullFree, IsRowWise;
    if Judge(env, e, index, scoped, |scoped|).value.result.Some? {
      ResultShape(env, e, index, scoped, |scoped|);
      if IsRowWise(e.kind) && NullFree(e.kind) { FailingAreViolating(env, e, scoped); }
    }
  }

  // ---------------------------------------------------------------------------
  // What a reused identity does
  // ---------------------------------------------------------------------------

  function StaleEnv(le: Order, a: Row, b: Row): (env: Env) { Env(le, [a, b], {"c"}, [], 0, _ => 7) }

  function StaleSuite(): (es: seq<Expectation>) {
    [Expectation(NotNull, "c", Some(Const(false))), Expectation(NotNull, "c", Some(Const(true)))]
  }

  /** Two scoped frames that share an identity: the second rule result reports the first frame's
      size, and so a negative number of succeeded records. */
  lemma StaleCountExample(le: Order, a: Row, b: Row)
    requires Get(a, "c") == Null && Get(b, "c") == Int(1)
    ensures var r := JudgeAll(StaleEnv(le, a, b), StaleSuite());
            r.Ok? && r.value[1].result.Some? && r.value[1].result.value.checked == 0 &&
            r.value[1].result.value.failed == Some(1) && r.value[1].result.value.succeeded == Some(-1)
  {
    var (env, es) := (StaleEnv(le, a, b), StaleSuite());
    ConstScopes(le, a, b);
    var j0 := Judge(env, es[0], 0, [], 0);
    var j1 := Judge(env, es[1], 1, [a, b], 0);
    FailingRows(le, a, b);
    assert j0.Ok? && j0.value.counted;
    assert JudgeFrom(env, es, 2, map[0 := 2, 7 := 0]) == Ok([]);
    assert JudgeFrom(env, es, 1, map[0 := 2, 7 := 0]) == Ok([j1.value] + []);
    assert JudgeFrom(env, es, 0, map[0 := 2]) == Ok([j0.value] + ([j1.value] + []));
  }

  lemma ConstScopes(le: Order, a: Row, b: Row)
    ensures Scoped(StaleEnv(le, a, b), StaleSuite()[0]) == []
    ensures Scoped(StaleEnv(le, a, b), StaleSuite()[1]) == [a, b]
  {
    FilterNone([a, b], HasTruth(le, Const(false), Yes));
    assert [a, b][1..] == [b] && [b][1..] == [];
    assert Where(le, [b], Const(true)) == [b];
  }

  lemma FailingRows(le: Order, a: Row, b: Row)
    requires Get(a, "c") == Null && Get(b, "c") == Int(1)
    ensures Where(le, [a, b], FailureCondition(NotNull, "c")) == [a]
  {
    assert [a, b][1..] == [b] && [b][1..] == [];
    assert Where(le, [b], FailureCondition(NotNull, "c")) == [];
  }
}
