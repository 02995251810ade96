/** The Spark expectation evaluator: which failure condition each expectation uses, what it counts
    and reports, and what its verdict means for the data. */
module Expectations {
  import opened Text
  import opened Sql
  import opened SparkRows
  import TrinoText

  // ---------------------------------------------------------------------------
  // Expectations and frames
  // ---------------------------------------------------------------------------

  /** Bounds of a range; a null bound is an absent one. */
  datatype Bounds = Bounds(min: Value, max: Value, strictMin: bool, strictMax: bool)

  datatype IgnoreMode = BothMissing | EitherMissing | Neither | OtherMode

  /** An expectation type with its keyword arguments; `None` where the code wants a list and got none.
      What a regular expression matches is not interpreted. `Measured` stands for the kinds that compare
      a measure of the column with a limit, or with the same measure of a partner column: numeric and
      timestamp tolerance, age in days, lag in hours, not in the future. Its measure (the timestamp of a
      text, say, or null) and its test are not interpreted; `early` and `late` say whether its arguments
      pass the checks made before and after the columns are looked up. */
  datatype Kind =
    | RowCountBetween(low: Option<int>, high: Option<int>)
    | CompoundUnique(names: seq<string>)
    | QueryMatch(outcome: Option<bool>)
    | NotNull
    | BeNull
    | Unique
    | PairEqual(left: string, other: string, mode: IgnoreMode)
    | BetweenFor(other: string, otherValue: Value, bounds: Bounds)
    | InSetFor(other: string, otherValue: Value, valueSet: Option<seq<Value>>, caseSensitive: bool)
    | EqualOther(other: string, caseSensitive: bool)
    | InSet(valueSet: Option<seq<Value>>)
    | NotInSet(valueSet: Option<seq<Value>>)
    | Between(bounds: Bounds)
    | NotBetween(bounds: Bounds)
    | MatchRegex(given: bool, matches: Value -> bool, negated: bool)
    | Measured(partner: Option<string>, early: bool, late: bool, measure: Value -> Value, bad: (Value, Value) -> Truth)
    | NonNullProportion(lowest: Option<real>, highest: Option<real>, strictLow: bool, strictHigh: bool)
    | OtherKind

  /** `column` is the stripped column name, empty when none is given; `scope` the row condition. */
  datatype Expectation = Expectation(kind: Kind, column: string, scope: Option<Cond>)

  /** The frame under evaluation: its rows, columns and object identity, the identity each scoped
      frame gets, and the primary key fields. */
  datatype Env = Env(
    le: Order, rows: seq<Row>, columns: set<string>, primaryKeys: seq<string>, frameId: int, scopedIds: nat -> int)

  function Field(name: string): (e: Operand) { Col([name]) }

  function Get(row: Row, name: string): (v: Value) { Read(row, [name]) }

  function Scoped(env: Env, e: Expectation): (rows: seq<Row>)
    ensures |rows| <= |env.rows|
  {
    if e.scope.Some? then Where(env.le, env.rows, e.scope.value) else env.rows
  }

  function ScopedId(env: Env, e: Expectation, i: nat): (id: int) {
    if e.scope.Some? then env.scopedIds(i) else env.frameId
  }

  // ---------------------------------------------------------------------------
  // Failure conditions
  // ---------------------------------------------------------------------------

  function InRange(c: Operand, b: Bounds): (r: Cond) {
    var low := if b.min == Null then Const(true)
               else And(Const(true), Cmp(if b.strictMin then Gt else Ge, c, Lit(b.min)));
    if b.max == Null then low else And(low, Cmp(if b.strictMax then Lt else Le, c, Lit(b.max)))
  }

  function Unequal(l: Operand, r: Operand): (c: Cond) { Or(Or(IsNull(l), IsNull(r)), Cmp(Ne, l, r)) }

  function EvaluatedRows(mode: IgnoreMode, l: Operand, r: Operand): (c: Cond) {
    match mode
    case BothMissing => Not(And(IsNull(l), IsNull(r)))
    case EitherMissing => And(IsNotNull(l), IsNotNull(r))
    case _ => Const(true)
  }

  predicate IsRowWise(k: Kind) {
    k.NotNull? || k.BeNull? || k.PairEqual? || k.BetweenFor? || k.InSetFor? || k.EqualOther? || k.InSet? ||
    k.NotInSet? || k.MatchRegex? || k.Measured? || k.Between? || k.NotBetween?
  }

  /** `str(v)`. */
  function ValueText(v: Value): (s: string) {
    match v
    case Null => "None"
    case Bool(b) => if b then "True" else "False"
    case Int(i) => IntText(i)
    case Str(s) => s
  }

  /** `str(v).lower()` of a known value, which is also the lower-cased text Spark casts it to; a null in a
      list becomes the text "none". */
  function Fold(v: Value): (s: string) { LowerCase(ValueText(v)) }

  function FoldedColumn(name: string): (e: Operand) { Derived([name], (v: Value) => Str(Fold(v))) }

  function FoldAll(values: seq<Value>): (r: seq<Value>)
    ensures |r| == |values| && forall i :: 0 <= i < |values| ==> r[i] == Str(Fold(values[i]))
  {
    seq(|values|, i requires 0 <= i < |values| => Str(Fold(values[i])))
  }

  /** The column is one of the values. */
  function Allowed(column: string, values: seq<Value>, caseSensitive: bool): (c: Cond) {
    if caseSensitive then IsIn(Field(column), values) else IsIn(FoldedColumn(column), FoldAll(values))
  }

  function UnequalFolded(l: string, r: string): (c: Cond) {
    Or(Or(IsNull(Field(l)), IsNull(Field(r))), Cmp(Ne, FoldedColumn(l), FoldedColumn(r)))
  }

  /** The measure of the column or of its partner is missing, or they fail the test. */
  function OutOfBounds(l: string, r: string, measure: Value -> Value, bad: (Value, Value) -> Truth): (c: Cond) {
    var (a, b) := (Derived([l], measure), Derived([r], measure));
    Or(Or(IsNull(a), IsNull(b)), Test(a, b, bad))
  }

  function Partner(partner: Option<string>, column: string): (r: string) {
    if partner.Some? then partner.value else column
  }

  function SetOf(v: Option<seq<Value>>): (r: seq<Value>) { if v.Some? then v.value else [] }

  /** The condition whose true rows are the failing ones. */
  function FailureCondition(k: Kind, column: string): (c: Cond)
    requires IsRowWise(k)
  {
    var c := Field(column);
    match k
    case NotNull => IsNull(c)
    case BeNull => IsNotNull(c)
    case PairEqual(left, other, mode) =>
      And(EvaluatedRows(mode, Field(left), Field(other)), Unequal(Field(left), Field(other)))
    case BetweenFor(other, otherValue, b) =>
      And(Cmp(Eq, Field(other), Lit(otherValue)), Or(IsNull(c), Not(InRange(c, b))))
    case InSetFor(other, otherValue, vs, cs) =>
      And(Cmp(Eq, Field(other), Lit(otherValue)), Or(IsNull(c), Not(Allowed(column, SetOf(vs), cs))))
    case EqualOther(other, cs) => if cs then Unequal(c, Field(other)) else UnequalFolded(column, other)
    case InSet(vs) => And(IsNotNull(c), Not(IsIn(c, SetOf(vs))))
    case NotInSet(vs) => And(IsNotNull(c), IsIn(c, SetOf(vs)))
    case Between(b) => And(IsNotNull(c), Not(InRange(c, b)))
    case NotBetween(b) => And(IsNotNull(c), InRange(c, b))
    case MatchRegex(_, matches, negated) =>
      var matching := Test(c, c, (v: Value, _: Value) => Lift(matches(v)));
      if negated then And(IsNotNull(c), matching) else Or(IsNull(c), Not(matching))
    case Measured(partner, _, _, measure, bad) => OutOfBounds(column, Partner(partner, column), measure, bad)
  }

  // ---------------------------------------------------------------------------
  // What a row-wise expectation says about a row, in two-valued terms
  // ---------------------------------------------------------------------------

  predicate InsideBounds(le: Order, b: Bounds, v: Value) {
    && (b.min != Null ==> if b.strictMin then !le(v, b.min) else le(b.min, v))
    && (b.max != Null ==> if b.strictMax then !le(b.max, v) else le(v, b.max))
  }

  predicate Ignored(mode: IgnoreMode, a: Value, b: Value) {
    match mode
    case BothMissing => a == Null && b == Null
    case EitherMissing => a == Null || b == Null
    case _ => false
  }

  predicate Differ(a: Value, b: Value) { a == Null || b == Null || a != b }

  predicate DifferFolded(a: Value, b: Value) { a == Null || b == Null || Fold(a) != Fold(b) }

  predicate IsListed(v: Value, values: seq<Value>, caseSensitive: bool) {
    if caseSensitive then v in values else exists i :: 0 <= i < |values| && Fold(values[i]) == Fold(v)
  }

  predicate Violates(le: Order, k: Kind, column: string, row: Row)
    requires IsRowWise(k)
  {
    var v := Get(row, column);
    match k
    case NotNull => v == Null
    case BeNull => v != Null
    case PairEqual(left, other, mode) =>
      !Ignored(mode, Get(row, left), Get(row, other)) && Differ(Get(row, left), Get(row, other))
    case BetweenFor(other, otherValue, b) =>
      Get(row, other) != Null && Get(row, other) == otherValue && (v == Null || !InsideBounds(le, b, v))
    case InSetFor(other, otherValue, vs, cs) =>
      Get(row, other) != Null && Get(row, other) == otherValue && (v == Null || !IsListed(v, SetOf(vs), cs))
    case EqualOther(other, cs) => if cs then Differ(v, Get(row, other)) else DifferFolded(v, Get(row, other))
    case InSet(vs) => v != Null && v !in SetOf(vs)
    case NotInSet(vs) => v != Null && v in SetOf(vs)
    case Between(b) => v != Null && !InsideBounds(le, b, v)
    case NotBetween(b) => v != Null && InsideBounds(le, b, v)
    case MatchRegex(_, matches, negated) => if negated then v != Null && matches(v) else v == Null || !matches(v)
    case Measured(partner, _, _, measure, bad) =>
      var other := Get(row, Partner(partner, column));
      || v == Null || other == Null || measure(v) == Null || measure(other) == Null
      || bad(measure(v), measure(other)) == Yes
  }

  /** The value set, where one is compared value by value, holds no null. */
  predicate NullFree(k: Kind) {
    (k.InSet? || (k.InSetFor? && k.caseSensitive)) ==> Null !in SetOf(k.valueSet)
  }

  lemma RangeMeaning(le: Order, b: Bounds, column: string, row: Row)
    requires Get(row, column) != Null
    ensures Holds(le, InRange(Field(column), b), row) == Lift(InsideBounds(le, b, Get(row, column)))
  {
    var low := InRange(Field(column), b.(max := Null));
    assert Holds(le, low, row) == Lift(InsideBounds(le, b.(max := Null), Get(row, column)));
    var high := Cmp(if b.strictMax then Lt else Le, Field(column), Lit(b.max));
    assert b.max != Null ==> Holds(le, And(low, high), row) == Holds(le, low, row).And(Holds(le, high, row));
  }

  lemma UnequalMeaning(le: Order, l: string, r: string, row: Row)
    ensures Holds(le, Unequal(Field(l), Field(r)), row) == Lift(Differ(Get(row, l), Get(row, r)))
  {
    var nulls := Or(IsNull(Field(l)), IsNull(Field(r)));
    assert Holds(le, nulls, row) == Lift(Get(row, l) == Null || Get(row, r) == Null);
  }

  lemma EvaluatedMeaning(le: Order, mode: IgnoreMode, l: string, r: string, row: Row)
    ensures Holds(le, EvaluatedRows(mode, Field(l), Field(r)), row) == Lift(!Ignored(mode, Get(row, l), Get(row, r)))
  {
    assert Holds(le, And(IsNull(Field(l)), IsNull(Field(r))), row) == Lift(Get(row, l) == Null && Get(row, r) == Null);
  }

  lemma UnequalFoldedMeaning(le: Order, l: string, r: string, row: Row)
    ensures Holds(le, UnequalFolded(l, r), row) == Lift(DifferFolded(Get(row, l), Get(row, r)))
  {
    hide Fold;
    var nulls := Or(IsNull(Field(l)), IsNull(Field(r)));
    assert Holds(le, nulls, row) == Lift(Get(row, l) == Null || Get(row, r) == Null);
  }

  lemma OutOfBoundsMeaning(le: Order, l: string, r: string, measure: Value -> Value, bad: (Value, Value) -> Truth,
                           row: Row)
    ensures var (v, other) := (Get(row, l), Get(row, r));
            Holds(le, OutOfBounds(l, r, measure, bad), row) == Yes <==>
            || v == Null || other == Null || measure(v) == Null || measure(other) == Null
            || bad(measure(v), measure(other)) == Yes
  {
    var (a, b) := (Derived([l], measure), Derived([r], measure));
    var nulls := Or(IsNull(a), IsNull(b));
    assert Holds(le, nulls, row) == Lift(ValueOf(a, row) == Null || ValueOf(b, row) == Null);
  }

  lemma RegexMeaning(le: Order, matches: Value -> bool, negated: bool, column: string, row: Row)
    ensures var k := MatchRegex(true, matches, negated);
            Holds(le, FailureCondition(k, column), row) == Yes <==> Violates(le, k, column, row)
  {
    var c := Field(column);
    var matching := Test(c, c, (v: Value, _: Value) => Lift(matches(v)));
    assert Get(row, column) != Null ==> Holds(le, matching, row) == Lift(matches(Get(row, column)));
    assert Holds(le, Not(matching), row) == Holds(le, matching, row).Not();
  }

  /** The text of the column among the texts of the values; a null among them is the text "none". */
  lemma FoldedMember(le: Order, column: string, values: seq<Value>, row: Row)
    requires Get(row, column) != Null
    ensures Holds(le, Allowed(column, values, false), row) == Lift(IsListed(Get(row, column), values, false))
  {
    hide Fold;
    var (v, texts) := (Get(row, column), FoldAll(values));
    MemberMeaning(le, Str(Fold(v)), texts);
    assert Str(Fold(v)) in texts <==> IsListed(v, values, false);
  }

  lemma ConditionMeaning(le: Order, k: Kind, column: string, row: Row)
    requires IsRowWise(k) && !k.InSet? && !k.InSetFor? && !k.NotInSet?
    ensures Holds(le, FailureCondition(k, column), row) == Yes <==> Violates(le, k, column, row)
  {
    hide InRange, InsideBounds, Unequal, EvaluatedRows, Differ, Ignored, UnequalFolded, DifferFolded, OutOfBounds;
    var c := Field(column);
    match k
    case NotNull =>
    case BeNull =>
    case PairEqual(l, r, mode) =>
      UnequalMeaning(le, l, r, row);
      EvaluatedMeaning(le, mode, l, r, row);
    case EqualOther(other, cs) =>
      if cs { UnequalMeaning(le, column, other, row); } else { UnequalFoldedMeaning(le, column, other, row); }
    case MatchRegex(_, matches, negated) => RegexMeaning(le, matches, negated, column, row);
    case Measured(partner, _, _, measure, bad) =>
      OutOfBoundsMeaning(le, column, Partner(partner, column), measure, bad, row);
    case BetweenFor(_, _, b) =>
      if Get(row, column) != Null { RangeMeaning(le, b, column, row); }
      assert Holds(le, Or(IsNull(c), Not(InRange(c, b))), row) ==
             Holds(le, IsNull(c), row).Or(Holds(le, Not(InRange(c, b)), row));
    case Between(b) => if Get(row, column) != Null { RangeMeaning(le, b, column, row); }
    case NotBetween(b) => if Get(row, column) != Null { RangeMeaning(le, b, column, row); }
  }

  lemma ContextSetMeaning(le: Order, k: Kind, column: string, row: Row)
    requires k.InSetFor?
    ensures Holds(le, FailureCondition(k, column), row) == Yes <==>
            Violates(le, k, column, row) && (NullFree(k) || Get(row, column) == Null)
  {
    var (c, vs) := (Field(column), SetOf(k.valueSet));
    var allowed := Allowed(column, vs, k.caseSensitive);
    MemberMeaning(le, Get(row, column), vs);
    if k.caseSensitive {
      PlainMember(le, column, vs, row);
    } else if Get(row, column) != Null {
      FoldedMember(le, column, vs, row);
    }
    hide Member, IsListed, Allowed, Fold;
    assert Holds(le, Not(allowed), row) == Holds(le, allowed, row).Not();
    assert Holds(le, Or(IsNull(c), Not(allowed)), row) == Holds(le, IsNull(c), row).Or(Holds(le, Not(allowed), row));
  }

  /** With a null in the set, a value outside it is "unknown": it is not counted as failing. */
  lemma SetConditionMeaning(le: Order, k: Kind, column: string, row: Row)
    requires k.InSet? || k.InSetFor? || k.NotInSet?
    ensures Holds(le, FailureCondition(k, column), row) == Yes <==>
            Violates(le, k, column, row) && (NullFree(k) || (k.InSetFor? && Get(row, column) == Null))
  {
    if k.InSetFor? {
      ContextSetMeaning(le, k, column, row);
    } else {
      var (c, vs) := (Field(column), SetOf(k.valueSet));
      MemberMeaning(le, Get(row, column), vs);
      hide Member;
      assert Holds(le, Not(IsIn(c, vs)), row) == Member(le, Get(row, column), vs).Not();
    }
  }

  lemma PlainMember(le: Order, column: string, values: seq<Value>, row: Row)
    ensures Holds(le, Allowed(column, values, true), row) == Member(le, Get(row, column), values)
    ensures IsListed(Get(row, column), values, true) <==> Get(row, column) in values
  {
  }

  /** A row-wise expectation fails a row exactly when the row violates it in two-valued terms:
      null handling, ignore modes, strict bounds and null context columns included. */
  lemma FailsExactly(le: Order, k: Kind, column: string, row: Row)
    requires IsRowWise(k) && NullFree(k)
    ensures Holds(le, FailureCondition(k, column), row) == Yes <==> Violates(le, k, column, row)
  {
    if k.InSet? || k.InSetFor? || k.NotInSet? {
      SetConditionMeaning(le, k, column, row);
    } else {
      ConditionMeaning(le, k, column, row);
    }
  }

  function Above(values: seq<Value>): (n: int)
    ensures forall i: int :: Int(i) in values ==> i < n
  {
    if values == [] then 0
    else
      var rest := Above(values[1..]);
      assert values == [values[0]] + values[1..];
      if values[0].Int? && values[0].i >= rest then values[0].i + 1 else rest
  }

  /** In-set is faithful to its two-valued meaning on every row if and only if its value set holds
      no null; with a null it can never fail any row. */
  lemma InSetFaithful(le: Order, values: seq<Value>, column: string)
    ensures (forall row ::
               Holds(le, FailureCondition(InSet(Some(values)), column), row) == Yes <==>
               Violates(le, InSet(Some(values)), column, row)) <==> Null !in values
    ensures Null in values ==> forall row :: Holds(le, FailureCondition(InSet(Some(values)), column), row) != Yes
  {
    var k := InSet(Some(values));
    hide FailureCondition;
    forall row
      ensures Holds(le, FailureCondition(k, column), row) == Yes <==> Violates(le, k, column, row) && Null !in values
    {
      SetConditionMeaning(le, k, column, row);
    }
    var outside: Row := map[[column] := Int(Above(values))];
    assert Violates(le, k, column, outside);
  }

  /** Some row can be in context and outside the set with a known value. */
  predicate CanMiss(values: seq<Value>, column: string, other: string, otherValue: Value) {
    otherValue != Null && (other == column ==> otherValue !in values)
  }

  /** The same for in-set in the context of another column: a null in the set makes it unfaithful
      exactly when a row in context can have a known value outside the set. */
  lemma InSetForFaithful(le: Order, values: seq<Value>, column: string, other: string, otherValue: Value)
    ensures var k := InSetFor(other, otherValue, Some(values), true);
            (forall row :: Holds(le, FailureCondition(k, column), row) == Yes <==> Violates(le, k, column, row))
            <==> Null !in values || !CanMiss(values, column, other, otherValue)
  {
    var k := InSetFor(other, otherValue, Some(values), true);
    hide FailureCondition;
    forall row
      ensures Holds(le, FailureCondition(k, column), row) == Yes <==>
              Violates(le, k, column, row) && (Null !in values || Get(row, column) == Null)
    {
      SetConditionMeaning(le, k, column, row);
    }
    if CanMiss(values, column, other, otherValue) {
      var outside: Row := map[[column] := Int(Above(values))][[other] := otherValue];
      assert [column] == [other] ==> [column][0] == [other][0];
      assert Violates(le, k, column, outside) && Get(outside, column) != Null;
    }
  }

  /** The values without the nulls. */
  function Known(values: seq<Value>): (r: seq<Value>)
    ensures forall v :: v in r <==> v in values && v != Null
  {
    if values == [] then []
    else (if values[0] == Null then [] else [values[0]]) + Known(values[1..])
  }

  /** Some row can be in context and have the text "none". */
  predicate CanBeNone(column: string, other: string, otherValue: Value) {
    otherValue != Null && (other == column ==> Fold(otherValue) == "none")
  }

  predicate HasNone(values: seq<Value>) { exists i :: 0 <= i < |values| && Fold(values[i]) == "none" }

  lemma NullIsNone()
    ensures Fold(Null) == "none" && Fold(Str("none")) == "none"
  {
    assert LowerCase("None") == "none";
    assert LowerCase("none") == "none";
  }

  /** The texts that values are compared by without case. */
  lemma FoldTexts(n: nat, s: string)
    ensures Fold(Null) == "none" && Fold(Bool(true)) == "true" && Fold(Bool(false)) == "false"
    ensures DigitsValue(Fold(Int(n))) == n
    ensures Fold(Str(s)) == LowerCase(s)
  {
    assert LowerCase("None") == "none" && LowerCase("True") == "true" && LowerCase("False") == "false";
    DigitsRoundTrip(n);
    assert LowerCase(DigitText(n)) == DigitText(n);
  }

  lemma ListedWithoutNulls(values: seq<Value>, v: Value)
    ensures IsListed(v, values, false) <==> IsListed(v, Known(values), false) || (Null in values && Fold(v) == "none")
  {
    NullIsNone();
    hide Fold;
    var known := Known(values);
    if i :| 0 <= i < |values| && Fold(values[i]) == Fold(v) {
      if values[i] != Null {
        assert values[i] in known;
        var j :| 0 <= j < |known| && known[j] == values[i];
        assert Fold(known[j]) == Fold(v);
      }
    }
    if j :| 0 <= j < |known| && Fold(known[j]) == Fold(v) {
      assert known[j] in known;
      var i :| 0 <= i < |values| && values[i] == known[j];
      assert Fold(values[i]) == Fold(v);
    }
    if Null in values {
      var i :| 0 <= i < |values| && values[i] == Null;
      assert Fold(values[i]) == "none";
    }
  }

  /** The row is in context and its text is "none". */
  predicate NoneInContext(column: string, other: string, otherValue: Value, row: Row) {
    && Get(row, other) != Null && Get(row, other) == otherValue
    && Get(row, column) != Null && Fold(Get(row, column)) == "none"
  }

  lemma NoneListed(values: seq<Value>, v: Value)
    requires Fold(v) == "none"
    ensures IsListed(v, values, false) <==> HasNone(values)
  {
    hide Fold;
  }

  /** One row: leaving the nulls out of the set changes its verdict iff its text is "none", the set has a
      null, and no known value has that text. */
  lemma NullsOnRow(le: Order, values: seq<Value>, column: string, other: string, otherValue: Value, row: Row)
    ensures (Violates(le, InSetFor(other, otherValue, Some(values), false), column, row) <==>
             Violates(le, InSetFor(other, otherValue, Some(Known(values)), false), column, row)) <==>
            !(NoneInContext(column, other, otherValue, row) && Null in values && !HasNone(Known(values)))
  {
    var v := Get(row, column);
    ListedWithoutNulls(values, v);
    if Fold(v) == "none" { NoneListed(Known(values), v); }
    hide Fold, Known, IsListed, HasNone;
  }

  lemma NoneRow(column: string, other: string, otherValue: Value) returns (row: Row)
    requires CanBeNone(column, other, otherValue)
    ensures NoneInContext(column, other, otherValue, row)
  {
    NullIsNone();
    hide Fold;
    row := map[[column] := if other == column then otherValue else Str("none")][[other] := otherValue];
    assert [column] == [other] ==> [column][0] == [other][0];
  }

  /** Compared without case, a null in the set does not stop the check; it lets the text "none" pass.
      The nulls make no difference to any row iff there are none, a known value already has that text,
      or no row in context can have it. */
  lemma NullBecomesNone(le: Order, values: seq<Value>, column: string, other: string, otherValue: Value)
    ensures var k := InSetFor(other, otherValue, Some(values), false);
            var known := InSetFor(other, otherValue, Some(Known(values)), false);
            (forall row :: Holds(le, FailureCondition(k, column), row) == Yes <==>
                           Holds(le, FailureCondition(known, column), row) == Yes)
            <==> Null !in values || HasNone(Known(values)) || !CanBeNone(column, other, otherValue)
  {
    var k := InSetFor(other, otherValue, Some(values), false);
    var known := InSetFor(other, otherValue, Some(Known(values)), false);
    hide FailureCondition, Fold, Known, Violates, Holds, HasNone;
    forall row
      ensures (Holds(le, FailureCondition(k, column), row) == Yes <==>
               Holds(le, FailureCondition(known, column), row) == Yes) <==>
              !(NoneInContext(column, other, otherValue, row) && Null in values && !HasNone(Known(values)))
    {
      FailsExactly(le, k, column, row);
      FailsExactly(le, known, column, row);
      NullsOnRow(le, values, column, other, otherValue, row);
    }
    if CanBeNone(column, other, otherValue) {
      var row := NoneRow(column, other, otherValue);
      assert Null in values && !HasNone(Known(values)) ==>
        (Holds(le, FailureCondition(k, column), row) == Yes <==>
         Holds(le, FailureCondition(known, column), row) != Yes);
    }
  }

  // ---------------------------------------------------------------------------
  // Judging one expectation
  // ---------------------------------------------------------------------------

  datatype Diagnostic = Diagnostic(index: nat, missingColumn: bool, rowIdentifier: Option<string>)

  datatype RuleResult = RuleResult(
    index: nat, passed: bool, checked: int, failed: Option<int>, succeeded: Option<int>, filteredOut: int)

  /** What evaluating one expectation adds: its verdict, its diagnostics, its rule result if it
      records one, and whether it asked for the cached row count of its frame. */
  datatype Judged = Judged(passed: bool, diagnostics: seq<Diagnostic>, result: Option<RuleResult>, counted: bool)

  function BuildRuleResult(index: nat, passed: bool, checked: int, failed: Option<int>, total: int): (r: RuleResult) {
    RuleResult(index, passed, checked, failed, if failed.None? then None else Some(checked - failed.value),
               if total > checked then total - checked else 0)
  }

  function IdentifierParts(row: Row, fields: seq<string>): (r: Option<seq<string>>) {
    if fields == [] then Some([])
    else if Get(row, fields[0]) == Null || IdentifierParts(row, fields[1..]).None? then None
    else Some([fields[0] + "=" + ValueText(Get(row, fields[0]))] + IdentifierParts(row, fields[1..]).value)
  }

  /** The row's primary key as text, when every field of it is known. */
  function RowIdentifier(row: Row, fields: seq<string>): (r: Option<string>) {
    if fields == [] || IdentifierParts(row, fields).None? then None
    else Some(TrinoText.Join(IdentifierParts(row, fields).value, "|"))
  }

  function RowDiagnostics(failing: seq<Row>, fields: seq<string>, index: nat): (ds: seq<Diagnostic>)
    ensures forall d :: d in ds ==> d.index == index && !d.missingColumn && d.rowIdentifier.Some?
  {
    if failing == [] then []
    else
      var id := RowIdentifier(failing[0], fields);
      (if id.Some? then [Diagnostic(index, false, id)] else []) + RowDiagnostics(failing[1..], fields, index)
  }

  function FirstIdentifier(rows: seq<Row>, fields: seq<string>): (r: Option<string>) {
    if fields == [] || rows == [] then None else RowIdentifier(rows[0], fields)
  }

  function FailureDiagnostics(failing: seq<Row>, fields: seq<string>, index: nat): (ds: seq<Diagnostic>)
    ensures ds != [] && forall d :: d in ds ==> d.index == index
  {
    var perRow := if fields == [] then [] else RowDiagnostics(failing, fields, index);
    if perRow != [] then perRow else [Diagnostic(index, false, FirstIdentifier(failing, fields))]
  }

  function Passing(): (r: Result<Judged>) { Ok(Judged(true, [], None, false)) }

  function Failing(index: nat, missing: bool, id: Option<string>): (r: Result<Judged>) {
    Ok(Judged(false, [Diagnostic(index, missing, id)], None, false))
  }

  /** Some two rows agree on all the named columns; nulls group together. */
  predicate HasDuplicate(rows: seq<Row>, names: seq<string>) {
    exists i, j :: 0 <= i < j < |rows| && SameKey(rows[i], rows[j], names)
  }

  predicate SameKey(a: Row, b: Row, names: seq<string>) {
    forall n :: n in names ==> Get(a, n) == Get(b, n)
  }

  function Concluded(env: Env, scoped: seq<Row>, index: nat, count: nat, failing: Option<seq<Row>>, hasFailure: bool)
    : (r: Result<Judged>)
  {
    var failed := if failing.None? then None else Some(|failing.value| as int);
    var ds := if !hasFailure then []
              else if failing.None? then [Diagnostic(index, false, None)]
              else FailureDiagnostics(failing.value, env.primaryKeys, index);
    Ok(Judged(!hasFailure, ds, Some(BuildRuleResult(index, !hasFailure, count, failed, |env.rows|)), true))
  }

  function RowWise(env: Env, scoped: seq<Row>, index: nat, count: nat, k: Kind, column: string): (r: Result<Judged>)
    requires IsRowWise(k)
  {
    var failing := Where(env.le, scoped, FailureCondition(k, column));
    Concluded(env, scoped, index, count, Some(failing), failing != [])
  }

  function Proportion(rows: seq<Row>, column: string): (r: real) {
    if rows == [] then 0.0
    else |Filter(rows, (row: Row) => Get(row, column) != Null)| as real / |rows| as real
  }

  /** Argument errors that abort the evaluation, checked after the column has been found. */
  predicate BadArguments(k: Kind) {
    match k
    case PairEqual(left, other, _) => left == "" || other == ""
    case BetweenFor(other, otherValue, b) => other == "" || otherValue == Null || (b.min == Null && b.max == Null)
    case InSetFor(other, otherValue, vs, _) => other == "" || otherValue == Null || vs.None?
    case EqualOther(other, _) => other == ""
    case MatchRegex(given, _, _) => !given
    case Measured(partner, early, _, _, _) => !early || partner == Some("")
    case InSet(vs) => vs.None?
    case NotInSet(vs) => vs.None?
    case Between(b) => b.min == Null && b.max == Null
    case NotBetween(b) => b.min == Null && b.max == Null
    case _ => false
  }

  /** The further columns a kind reads, in the order their absence is reported. */
  function OtherColumns(k: Kind): (r: seq<string>) {
    match k
    case PairEqual(left, other, _) => [left, other]
    case BetweenFor(other, _, _) => [other]
    case InSetFor(other, _, _, _) => [other]
    case EqualOther(other, _) => [other]
    case Measured(partner, _, _, _, _) => if partner.Some? then [partner.value] else []
    case _ => []
  }

  function JudgeColumn(env: Env, e: Expectation, index: nat, scoped: seq<Row>, count: nat): (r: Result<Judged>) {
    var k := e.kind;
    if e.column == "" then Err("GX_WORKER_INVALID_EXPECTATION")
    else if e.column !in env.columns then Failing(index, true, FirstIdentifier(scoped, env.primaryKeys))
    else if BadArguments(k) then Err("GX_WORKER_INVALID_EXPECTATION")
    else if exists n :: n in OtherColumns(k) && n !in env.columns then Failing(index, true, None)
    else if (k.PairEqual? && k.mode == OtherMode) || (k.Measured? && !k.late) then Err("GX_WORKER_INVALID_EXPECTATION")
    else if IsRowWise(k) then RowWise(env, scoped, index, count, k, e.column)
    else if k.Unique? then
      var dup := HasDuplicate(scoped, [e.column]);
      Concluded(env, scoped, index, count, None, dup)
    else if k.NonNullProportion? then
      var p := Proportion(scoped, e.column);
      var lowOk := k.lowest.None? || if k.strictLow then p > k.lowest.value else p >= k.lowest.value;
      var highOk := k.highest.None? || if k.strictHigh then p < k.highest.value else p <= k.highest.value;
      Concluded(env, scoped, index, count, None, !(lowOk && highOk))
    else Err("GX_WORKER_UNSUPPORTED_EXPECTATION")
  }

  /** One turn of the evaluation loop; `count` is what the row-count cache answers for the frame. */
  function Judge(env: Env, e: Expectation, index: nat, scoped: seq<Row>, count: nat): (r: Result<Judged>) {
    match e.kind
    case RowCountBetween(low, high) =>
      if low.None? || high.None? then Err("GX_WORKER_INVALID_EXPECTATION")
      else if low.value <= count <= high.value then Ok(Judged(true, [], None, true))
      else Ok(Judged(false, [Diagnostic(index, false, None)], None, true))
    case CompoundUnique(names) =>
      if names == [] then Err("GX_WORKER_INVALID_EXPECTATION")
      else if exists n :: n in names && n !in env.columns then Failing(index, true, None)
      else if HasDuplicate(scoped, names) then Failing(index, false, None) else Passing()
    case QueryMatch(outcome) =>
      if outcome.None? then Err("GX_WORKER_EXECUTION_ERROR")
      else if outcome.value then Passing() else Failing(index, false, None)
    case _ => JudgeColumn(env, e, index, scoped, count)
  }

  /** A judged expectation passed iff it left no diagnostic, and every diagnostic is its own. */
  predicate Coherent(j: Judged, index: nat) {
    && (j.passed <==> j.diagnostics == [])
    && (forall d :: d in j.diagnostics ==> d.index == index)
    && (j.result.Some? ==> j.counted && j.result.value.index == index && j.result.value.passed == j.passed)
  }

  lemma JudgeCoherent(env: Env, e: Expectation, index: nat, scoped: seq<Row>, count: nat)
    requires Judge(env, e, index, scoped, count).Ok?
    ensures Coherent(Judge(env, e, index, scoped, count).value, index)
  {
    hide HasDuplicate, RowIdentifier, RowDiagnostics, FailureCondition, Where, Proportion;
  }
}
