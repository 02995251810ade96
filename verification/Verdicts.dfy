/** What the verdict, the diagnostics and the acceptance of every kind of expectation say about the data,
    in terms of the rows, columns and arguments alone. */
module Verdicts {
  import opened Text
  import opened Sql
  import opened SparkRows
  import opened Expectations
  import opened Evaluation
  import TrinoText

  // ---------------------------------------------------------------------------
  // Scope and columns
  // ---------------------------------------------------------------------------

  /** The row is judged: there is no row condition, or it is true of the row. */
  predicate InScope(env: Env, e: Expectation, row: Row) {
    e.scope.Some? ==> Holds(env.le, e.scope.value, row) == Yes
  }

  lemma {:induction false} FilterMembers<T>(rows: seq<T>, keep: T -> bool, x: T)
    ensures x in Filter(rows, keep) <==> x in rows && keep(x)
  {
    if rows != [] {
      FilterMembers(rows[1..], keep, x);
      assert rows == [rows[0]] + rows[1..];
    }
  }

  lemma {:induction false} FilterAll<T>(rows: seq<T>, keep: T -> bool)
    requires forall x :: x in rows ==> keep(x)
    ensures Filter(rows, keep) == rows
  {
    if rows != [] {
      assert rows == [rows[0]] + rows[1..];
      FilterAll(rows[1..], keep);
    }
  }

  /** The frame of an expectation is the rows in its scope, in order. */
  lemma ScopedExactly(env: Env, e: Expectation)
    ensures Scoped(env, e) == Filter(env.rows, (row: Row) => InScope(env, e, row))
  {
    var keep := (row: Row) => InScope(env, e, row);
    if e.scope.Some? {
      FilterSame(env.rows, HasTruth(env.le, e.scope.value, Yes), keep);
    } else {
      FilterAll(env.rows, keep);
    }
  }

  lemma ScopedMember(env: Env, e: Expectation, row: Row)
    ensures row in Scoped(env, e) <==> row in env.rows && InScope(env, e, row)
  {
    ScopedExactly(env, e);
    FilterMembers(env.rows, (r: Row) => InScope(env, e, r), row);
    hide Scoped, Filter, InScope;
  }

  /** The columns an expectation on one column reads. */
  function Reads(e: Expectation): (r: set<string>) {
    {e.column} + match e.kind
      case PairEqual(left, other, _) => {left, other}
      case BetweenFor(other, _, _) => {other}
      case InSetFor(other, _, _, _) => {other}
      case EqualOther(other, _) => {other}
      case Measured(Some(other), _, _, _, _) => {other}
      case _ => {}
  }

  lemma ReadsColumns(env: Env, e: Expectation)
    ensures HasColumns(env, e) <==> Reads(e) <= env.columns
  {
    var others := OtherColumns(e.kind);
    assert forall n :: n in Reads(e) <==> n == e.column || n in others;
    hide OtherColumns, Reads;
  }

  // ---------------------------------------------------------------------------
  // Counts
  // ---------------------------------------------------------------------------

  /** Expectation `i` asks for the size of a scoped frame that has the same identity as that of `k`. */
  predicate AsksAlike(env: Env, es: seq<Expectation>, i: nat, k: nat)
    requires i < |es| && k < |es|
  {
    Asks(env, es[i]) && es[i].scope.Some? && env.scopedIds(i) == env.scopedIds(k)
  }

  /** None of the first `i` expectations does. */
  predicate NoneAlike(env: Env, es: seq<Expectation>, i: nat, k: nat)
    requires i <= |es| && k < |es|
  {
    forall j: nat :: j < i ==> !AsksAlike(env, es, j, k)
  }

  /** Which count an expectation works with: the size of the whole frame without a row condition or when
      its frame took over that identity; else the size of the first frame of its identity that was
      asked for before; else its own. */
  lemma UsedCountExactly(env: Env, es: seq<Expectation>, k: nat)
    requires k < |es|
    ensures es[k].scope.None? || env.scopedIds(k) == env.frameId ==> UsedCount(env, es, k) == |env.rows|
    ensures es[k].scope.Some? && env.scopedIds(k) != env.frameId ==>
            && (forall i: nat :: i < k && AsksAlike(env, es, i, k) && NoneAlike(env, es, i, k) ==>
                  UsedCount(env, es, k) == |Scoped(env, es[i])|)
            && (NoneAlike(env, es, k, k) ==> UsedCount(env, es, k) == |Scoped(env, es[k])|)
  {
    if es[k].scope.Some? && env.scopedIds(k) != env.frameId {
      forall i: nat | i < k && AsksAlike(env, es, i, k) && NoneAlike(env, es, i, k)
        ensures UsedCount(env, es, k) == |Scoped(env, es[i])|
      {
        NoneAsked(env, es, k, i);
        FirstAskedStays(env, es, env.scopedIds(k), i + 1, k);
      }
      if NoneAlike(env, es, k, k) { NoneAsked(env, es, k, k); }
    }
  }

  lemma {:induction false} NoneAsked(env: Env, es: seq<Expectation>, k: nat, i: nat)
    requires i <= k < |es| && env.scopedIds(k) != env.frameId
    requires NoneAlike(env, es, i, k)
    ensures FirstAsked(env, es, env.scopedIds(k), i) == None
  {
    hide Asks, Scoped;
    if i > 0 {
      NoneAsked(env, es, k, i - 1);
      assert !AsksAlike(env, es, i - 1, k);
    }
  }

  // ---------------------------------------------------------------------------
  // Verdicts
  // ---------------------------------------------------------------------------

  /** A row-wise expectation fails iff a column it reads is missing or a row in its scope violates it. */
  lemma RowVerdict(env: Env, es: seq<Expectation>, k: nat)
    requires k < |es| && JudgeAll(env, es).Ok? && IsRowWise(es[k].kind) && NullFree(es[k].kind)
    ensures !JudgeAll(env, es).value[k].passed <==>
            || !(Reads(es[k]) <= env.columns)
            || exists row :: row in env.rows && InScope(env, es[k], row) &&
                             Violates(env.le, es[k].kind, es[k].column, row)
  {
    FailedIffViolated(env, es, k);
    ReadsColumns(env, es[k]);
    forall row ensures row in Scoped(env, es[k]) <==> row in env.rows && InScope(env, es[k], row) {
      ScopedMember(env, es[k], row);
    }
    hide JudgeAll, Scoped, InScope, Violates, HasColumns, Reads;
  }

  /** No two of the rows agree on all the named columns; two nulls agree. */
  ghost predicate AllDiffer(rows: seq<Row>, names: seq<string>) {
    forall i, j :: 0 <= i < j < |rows| ==> exists n :: n in names && Get(rows[i], n) != Get(rows[j], n)
  }

  lemma DuplicateExactly(rows: seq<Row>, names: seq<string>)
    ensures HasDuplicate(rows, names) <==> !AllDiffer(rows, names)
  {
    if HasDuplicate(rows, names) {
      var i, j :| 0 <= i < j < |rows| && SameKey(rows[i], rows[j], names);
      assert !exists n :: n in names && Get(rows[i], n) != Get(rows[j], n);
    }
    if !AllDiffer(rows, names) {
      var i, j :| 0 <= i < j < |rows| && !exists n :: n in names && Get(rows[i], n) != Get(rows[j], n);
      assert SameKey(rows[i], rows[j], names);
    }
  }

  /** Compound uniqueness passes iff the named columns exist and no two rows in scope agree on them. */
  lemma CompoundVerdict(env: Env, es: seq<Expectation>, k: nat, names: seq<string>)
    requires k < |es| && JudgeAll(env, es).Ok? && es[k].kind == CompoundUnique(names)
    ensures JudgeAll(env, es).value[k].passed <==>
            (forall n :: n in names ==> n in env.columns) && AllDiffer(Scoped(env, es[k]), names)
  {
    JudgedWith(env, es, k);
    DuplicateExactly(Scoped(env, es[k]), names);
    hide JudgeAll, Scoped, HasDuplicate, AllDiffer, UsedCount;
  }

  /** Uniqueness of one column likewise. */
  lemma UniqueVerdict(env: Env, es: seq<Expectation>, k: nat)
    requires k < |es| && JudgeAll(env, es).Ok? && es[k].kind == Unique
    ensures JudgeAll(env, es).value[k].passed <==>
            es[k].column in env.columns && AllDiffer(Scoped(env, es[k]), [es[k].column])
  {
    JudgedWith(env, es, k);
    DuplicateExactly(Scoped(env, es[k]), [es[k].column]);
    hide JudgeAll, Scoped, HasDuplicate, AllDiffer, UsedCount;
  }

  /** The rows with a known value in the column, by position. */
  function KnownAt(rows: seq<Row>, column: string): (r: set<nat>) {
    set i: nat | i < |rows| && Get(rows[i], column) != Null
  }

  lemma {:induction false} FilterLast<T>(rows: seq<T>, keep: T -> bool)
    requires rows != []
    ensures Filter(rows, keep) ==
            Filter(rows[..|rows| - 1], keep) + if keep(rows[|rows| - 1]) then [rows[|rows| - 1]] else []
  {
    if |rows| > 1 {
      FilterLast(rows[1..], keep);
      assert rows[1..][..|rows| - 2] == rows[..|rows| - 1][1..];
    }
  }

  lemma KnownAtAppend(rows: seq<Row>, row: Row, column: string)
    ensures |KnownAt(rows + [row], column)| == |KnownAt(rows, column)| + if Get(row, column) != Null then 1 else 0
  {
    hide Get;
    var (all, before) := (KnownAt(rows + [row], column), KnownAt(rows, column));
    forall i: nat ensures i in all <==> i in before || (i == |rows| && Get(row, column) != Null) {}
    assert |rows| !in before;
    hide KnownAt;
    assert all == before + if Get(row, column) != Null then {|rows|} else {};
  }

  lemma {:induction false} KnownCount(rows: seq<Row>, column: string)
    ensures |Filter(rows, (row: Row) => Get(row, column) != Null)| == |KnownAt(rows, column)|
  {
    if rows == [] {
      assert KnownAt(rows, column) == {};
    } else {
      var (front, last) := (rows[..|rows| - 1], rows[|rows| - 1]);
      assert rows == front + [last];
      hide Filter, KnownAt;
      KnownCount(front, column);
      FilterLast(rows, (row: Row) => Get(row, column) != Null);
      KnownAtAppend(front, last, column);
    }
  }

  /** `n` of `m` rows lie on the right side of a bound on their share; of no rows the share is 0. */
  predicate ShareAbove(n: nat, m: nat, bound: real, strict: bool) {
    if m == 0 then (if strict then bound < 0.0 else bound <= 0.0)
    else if strict then bound * m as real < n as real else bound * m as real <= n as real
  }

  predicate ShareBelow(n: nat, m: nat, bound: real, strict: bool) {
    if m == 0 then (if strict then bound > 0.0 else bound >= 0.0)
    else if strict then bound * m as real > n as real else bound * m as real >= n as real
  }

  lemma ShareOfBound(n: real, m: real, bound: real)
    requires m > 0.0
    ensures (n / m > bound <==> bound * m < n) && (n / m >= bound <==> bound * m <= n)
    ensures (n / m < bound <==> bound * m > n) && (n / m <= bound <==> bound * m >= n)
  {
    var q := n / m;
    assert q * m == n;
    assert (q - bound) * m == n - bound * m;
  }

  lemma ProportionExactly(rows: seq<Row>, column: string, bound: real, strict: bool)
    ensures var (n, m, p) := (|KnownAt(rows, column)|, |rows|, Proportion(rows, column));
            && (ShareAbove(n, m, bound, strict) <==> if strict then p > bound else p >= bound)
            && (ShareBelow(n, m, bound, strict) <==> if strict then p < bound else p <= bound)
  {
    KnownCount(rows, column);
    if rows != [] { ShareOfBound(|KnownAt(rows, column)| as real, |rows| as real, bound); }
    hide KnownAt, Filter;
  }

  /** The share of known values passes iff the column exists and the count of rows in scope with a value
      lies within the bounds, strict ones included. */
  lemma ProportionVerdict(env: Env, es: seq<Expectation>, k: nat)
    requires k < |es| && JudgeAll(env, es).Ok? && es[k].kind.NonNullProportion?
    ensures var (e, rows) := (es[k], Scoped(env, es[k]));
            var (n, m) := (|KnownAt(rows, e.column)|, |rows|);
            JudgeAll(env, es).value[k].passed <==>
            && e.column in env.columns
            && (e.kind.lowest.Some? ==> ShareAbove(n, m, e.kind.lowest.value, e.kind.strictLow))
            && (e.kind.highest.Some? ==> ShareBelow(n, m, e.kind.highest.value, e.kind.strictHigh))
  {
    var e := es[k];
    JudgedWith(env, es, k);
    if e.kind.lowest.Some? {
      ProportionExactly(Scoped(env, e), e.column, e.kind.lowest.value, e.kind.strictLow);
    }
    if e.kind.highest.Some? {
      ProportionExactly(Scoped(env, e), e.column, e.kind.highest.value, e.kind.strictHigh);
    }
    hide JudgeAll, Scoped, KnownAt, UsedCount, Proportion, ShareAbove, ShareBelow;
  }

  /** A query comparison passes iff its outcome says so, and an unknown kind never passes. */
  lemma OtherVerdicts(env: Env, es: seq<Expectation>, k: nat)
    requires k < |es| && JudgeAll(env, es).Ok?
    ensures es[k].kind.QueryMatch? ==> (JudgeAll(env, es).value[k].passed <==> es[k].kind.outcome == Some(true))
    ensures es[k].kind.OtherKind? ==> !JudgeAll(env, es).value[k].passed
  {
    JudgedWith(env, es, k);
    hide JudgeAll, Scoped, UsedCount;
  }

  // ---------------------------------------------------------------------------
  // Which suites are evaluated at all
  // ---------------------------------------------------------------------------

  /** The arguments checked before the other columns are looked up. */
  predicate ArgumentsGiven(k: Kind) {
    match k
    case PairEqual(left, other, _) => left != "" && other != ""
    case BetweenFor(other, v, b) => other != "" && v != Null && !(b.min == Null && b.max == Null)
    case InSetFor(other, v, vs, _) => other != "" && v != Null && vs.Some?
    case EqualOther(other, _) => other != ""
    case InSet(vs) => vs.Some?
    case NotInSet(vs) => vs.Some?
    case Between(b) => b.min != Null || b.max != Null
    case NotBetween(b) => b.min != Null || b.max != Null
    case MatchRegex(given, _, _) => given
    case Measured(partner, early, _, _, _) => early && partner != Some("")
    case _ => true
  }

  /** What an expectation needs so that its evaluation does not raise. */
  predicate Acceptable(env: Env, e: Expectation) {
    match e.kind
    case RowCountBetween(low, high) => low.Some? && high.Some?
    case CompoundUnique(names) => names != []
    case QueryMatch(outcome) => outcome.Some?
    case _ =>
      && e.column != ""
      && (e.column in env.columns ==>
            && ArgumentsGiven(e.kind)
            && (Reads(e) <= env.columns ==>
                  && !(e.kind.PairEqual? && e.kind.mode == OtherMode) && !(e.kind.Measured? && !e.kind.late)
                  && !e.kind.OtherKind?))
  }

  lemma JudgeAccepts(env: Env, e: Expectation, index: nat, scoped: seq<Row>, count: nat)
    ensures Judge(env, e, index, scoped, count).Ok? <==> Acceptable(env, e)
  {
    ReadsColumns(env, e);
    hide HasDuplicate, FailureDiagnostics, FirstIdentifier, FailureCondition, Where, Proportion, Reads, OtherColumns;
  }

  lemma JudgeFromOk(env: Env, es: seq<Expectation>, i: nat, cache: Cache) returns (count: nat, next: Cache)
    requires i < |es|
    ensures JudgeFrom(env, es, i, cache).Ok? <==>
            Judge(env, es[i], i, Scoped(env, es[i]), count).Ok? && JudgeFrom(env, es, i + 1, next).Ok?
  {
    hide Judge, Scoped, ScopedId;
    var id := ScopedId(env, es[i], i);
    count := Lookup(cache, id, |Scoped(env, es[i])|);
    var j := Judge(env, es[i], i, Scoped(env, es[i]), count);
    next := if j.Ok? && j.value.counted then cache[id := count] else cache;
  }

  lemma {:induction false} AcceptsFrom(env: Env, es: seq<Expectation>, i: nat, cache: Cache)
    requires i <= |es|
    ensures JudgeFrom(env, es, i, cache).Ok? <==> forall k :: i <= k < |es| ==> Acceptable(env, es[k])
    decreases |es| - i
  {
    if i < |es| {
      hide Judge, Acceptable, Scoped, ScopedId, JudgeFrom;
      var count, next := JudgeFromOk(env, es, i, cache);
      JudgeAccepts(env, es[i], i, Scoped(env, es[i]), count);
      AcceptsFrom(env, es, i + 1, next);
    }
  }

  /** A suite is evaluated to the end iff each of its expectations is acceptable. */
  lemma EvaluatesExactly(env: Env, es: seq<Expectation>)
    ensures JudgeAll(env, es).Ok? <==> forall k :: 0 <= k < |es| ==> Acceptable(env, es[k])
  {
    AcceptsFrom(env, es, 0, map[env.frameId := |env.rows|]);
  }

  // ---------------------------------------------------------------------------
  // Diagnostics
  // ---------------------------------------------------------------------------

  /** The parts of a row's identifier: `name=value` for each primary key field. */
  function Parts(row: Row, fields: seq<string>): (r: seq<string>)
    ensures |r| == |fields|
    ensures forall i :: 0 <= i < |fields| ==> r[i] == fields[i] + "=" + ValueText(Get(row, fields[i]))
  {
    seq(|fields|, i requires 0 <= i < |fields| => fields[i] + "=" + ValueText(Get(row, fields[i])))
  }

  predicate AllKnown(row: Row, fields: seq<string>) {
    forall i :: 0 <= i < |fields| ==> Get(row, fields[i]) != Null
  }

  lemma PartsHead(row: Row, fields: seq<string>)
    requires fields != []
    ensures Parts(row, fields) == [fields[0] + "=" + ValueText(Get(row, fields[0]))] + Parts(row, fields[1..])
    ensures AllKnown(row, fields) <==> Get(row, fields[0]) != Null && AllKnown(row, fields[1..])
  {
    hide ValueText, Get;
    var rest := fields[1..];
    assert forall i :: 1 <= i < |fields| ==> fields[i] == rest[i - 1];
    assert forall i :: 0 <= i < |rest| ==> rest[i] == fields[i + 1];
  }

  lemma {:induction false} PartsExactly(row: Row, fields: seq<string>)
    ensures IdentifierParts(row, fields) == if AllKnown(row, fields) then Some(Parts(row, fields)) else None
  {
    if fields != [] {
      PartsExactly(row, fields[1..]);
      PartsHead(row, fields);
      hide AllKnown, Parts, ValueText, Get;
    }
  }

  /** A row has an identifier iff every primary key field is known: their parts joined by bars. */
  lemma IdentifierExactly(row: Row, fields: seq<string>)
    ensures RowIdentifier(row, fields) ==
            if fields != [] && AllKnown(row, fields) then Some(TrinoText.Join(Parts(row, fields), "|")) else None
  {
    PartsExactly(row, fields);
    hide IdentifierParts, Parts, AllKnown;
  }

  /** One diagnostic per row with an identifier, in order. */
  function PerRow(failing: seq<Row>, fields: seq<string>, index: nat): (ds: seq<Diagnostic>)
    requires forall row :: row in failing ==> RowIdentifier(row, fields).Some?
    ensures |ds| == |failing|
    ensures forall i :: 0 <= i < |failing| ==> ds[i] == Diagnostic(index, false, RowIdentifier(failing[i], fields))
  {
    seq(|failing|, i requires 0 <= i < |failing| => Diagnostic(index, false, RowIdentifier(failing[i], fields)))
  }

  function HasIdentifier(fields: seq<string>): (r: Row -> bool) { row => RowIdentifier(row, fields).Some? }

  lemma {:induction false} PerRowExactly(failing: seq<Row>, fields: seq<string>, index: nat)
    ensures var keyed := Filter(failing, HasIdentifier(fields));
            && (forall row :: row in keyed ==> RowIdentifier(row, fields).Some?)
            && RowDiagnostics(failing, fields, index) == PerRow(keyed, fields, index)
  {
    var keyed := Filter(failing, HasIdentifier(fields));
    forall row | row in keyed ensures RowIdentifier(row, fields).Some? {
      FilterMembers(failing, HasIdentifier(fields), row);
    }
    if failing != [] {
      PerRowExactly(failing[1..], fields, index);
      hide RowIdentifier;
      var rest := Filter(failing[1..], HasIdentifier(fields));
      if RowIdentifier(failing[0], fields).Some? {
        assert keyed == [failing[0]] + rest;
        assert PerRow(keyed, fields, index) ==
               [Diagnostic(index, false, RowIdentifier(failing[0], fields))] + PerRow(rest, fields, index);
      }
    }
  }

  /** The diagnostics of a failed row-wise expectation whose columns exist: one for each failing row with a
      known primary key, in order and with that key, or a single one without a key if there is none. */
  lemma DiagnosticsExactly(env: Env, es: seq<Expectation>, k: nat)
    requires k < |es| && JudgeAll(env, es).Ok? && IsRowWise(es[k].kind) && Reads(es[k]) <= env.columns
    requires !JudgeAll(env, es).value[k].passed
    ensures var failing := Where(env.le, Scoped(env, es[k]), FailureCondition(es[k].kind, es[k].column));
            var keyed := Filter(failing, HasIdentifier(env.primaryKeys));
            && (forall row :: row in keyed ==> RowIdentifier(row, env.primaryKeys).Some?)
            && JudgeAll(env, es).value[k].diagnostics ==
               (if keyed == [] then [Diagnostic(k, false, None)] else PerRow(keyed, env.primaryKeys, k))
  {
    var failing := Where(env.le, Scoped(env, es[k]), FailureCondition(es[k].kind, es[k].column));
    JudgedWith(env, es, k);
    ReadsColumns(env, es[k]);
    PerRowExactly(failing, env.primaryKeys, k);
    FailureDiagnosticsAre(failing, env.primaryKeys, k);
    RowWiseDiagnostics(env, es[k], k, Scoped(env, es[k]), UsedCount(env, es, k));
    hide *;
  }

  lemma RowWiseDiagnostics(env: Env, e: Expectation, index: nat, scoped: seq<Row>, count: nat)
    requires IsRowWise(e.kind) && HasColumns(env, e) && Judge(env, e, index, scoped, count).Ok?
    requires !Judge(env, e, index, scoped, count).value.passed
    ensures Judge(env, e, index, scoped, count).value.diagnostics ==
            FailureDiagnostics(Where(env.le, scoped, FailureCondition(e.kind, e.column)), env.primaryKeys, index)
  {
    hide FailureCondition, FailureDiagnostics, Where, HasDuplicate, Proportion, FirstIdentifier;
  }

  /** The diagnostic of a missing column: the column of the expectation comes with the key of the first
      row in scope, any other column without one. */
  lemma MissingDiagnostics(env: Env, es: seq<Expectation>, k: nat)
    requires k < |es| && JudgeAll(env, es).Ok? && IsRowWise(es[k].kind) && !(Reads(es[k]) <= env.columns)
    ensures var (e, scoped) := (es[k], Scoped(env, es[k]));
            JudgeAll(env, es).value[k].diagnostics ==
            [Diagnostic(k, true, if e.column in env.columns || scoped == [] then None
                                 else RowIdentifier(scoped[0], env.primaryKeys))]
  {
    JudgedWith(env, es, k);
    ReadsColumns(env, es[k]);
    hide JudgeAll, Scoped, UsedCount, Reads, FailureCondition, FailureDiagnostics, Where, IdentifierParts;
  }

  lemma FailureDiagnosticsAre(failing: seq<Row>, fields: seq<string>, index: nat)
    requires forall row :: row in Filter(failing, HasIdentifier(fields)) ==> RowIdentifier(row, fields).Some?
    ensures var keyed := Filter(failing, HasIdentifier(fields));
            FailureDiagnostics(failing, fields, index) ==
            if keyed == [] then [Diagnostic(index, false, None)] else PerRow(keyed, fields, index)
  {
    PerRowExactly(failing, fields, index);
    var keyed := Filter(failing, HasIdentifier(fields));
    if keyed == [] {
      FilterNone(failing, HasIdentifier(fields));
      assert failing != [] ==> failing[0] in failing;
    }
  }
}
