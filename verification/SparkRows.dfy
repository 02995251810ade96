/** Spark column conditions under three-valued logic, the row predicates of the Spark engine, and
    their agreement with the SQL text of the Trino engine. */
module SparkRows {
  import opened Text
  import opened Sql
  import opened TrinoText
  import opened TrinoLowering

  /** A column, a literal, or what a function makes of the known values of a column. */
  datatype Operand = Col(name: Column) | Lit(value: Value) | Derived(name: Column, f: Value -> Value)

  datatype Cond =
    | Const(b: bool)
    | IsNull(arg: Operand)
    | IsNotNull(arg: Operand)
    | Cmp(op: CompareOp, left: Operand, right: Operand)
    | IsIn(arg: Operand, values: seq<Value>)
    | Test(left: Operand, right: Operand, test: (Value, Value) -> Truth)
    | And(a: Cond, b': Cond)
    | Or(a: Cond, b': Cond)
    | Not(a: Cond)

  function ValueOf(e: Operand, row: Row): (v: Value) {
    match e
    case Col(name) => Read(row, name)
    case Lit(v) => v
    case Derived(name, f) => if Read(row, name) == Null then Null else f(Read(row, name))
  }

  function Holds(le: Order, c: Cond, row: Row): (t: Truth) {
    match c
    case Const(b) => Lift(b)
    case IsNull(e) => Lift(ValueOf(e, row) == Null)
    case IsNotNull(e) => Lift(ValueOf(e, row) != Null)
    case Cmp(op, l, r) => Compare(le, op, ValueOf(l, row), ValueOf(r, row))
    case IsIn(e, vs) => Member(le, ValueOf(e, row), vs)
    case Test(l, r, test) =>
      if ValueOf(l, row) == Null || ValueOf(r, row) == Null then Unknown else test(ValueOf(l, row), ValueOf(r, row))
    case And(a, b) => Holds(le, a, row).And(Holds(le, b, row))
    case Or(a, b) => Holds(le, a, row).Or(Holds(le, b, row))
    case Not(a) => Holds(le, a, row).Not()
  }

  function HasTruth(le: Order, c: Cond, t: Truth): (r: Row -> bool) {
    row => Holds(le, c, row) == t
  }

  /** `df.where(c)`: rows on which the condition is true. */
  function Where(le: Order, rows: seq<Row>, c: Cond): (r: seq<Row>) { Filter(rows, HasTruth(le, c, Yes)) }

  function WithTruth(le: Order, rows: seq<Row>, c: Cond, t: Truth): (r: seq<Row>) { Filter(rows, HasTruth(le, c, t)) }

  // ---------------------------------------------------------------------------
  // Row-level predicates
  // ---------------------------------------------------------------------------

  predicate Given(v: Option<Value>) { v.Some? && v.value != Null }

  function OrNull(v: Option<Value>): (r: Value) { if v.Some? then v.value else Null }

  function BuildRowLevelPredicate(rule: RowRule): (r: Result<Cond>) {
    var c := Col(SplitDots(Strip(rule.column)));
    if Strip(rule.column) == "" then Err("execution requires a column")
    else match rule.kind
      case NotNullRule => Ok(IsNotNull(c))
      case IsNullRule => Ok(IsNull(c))
      case MinRule =>
        if !Given(rule.min) then Err("min rule requires min")
        else Ok(And(IsNotNull(c), Cmp(Ge, c, Lit(rule.min.value))))
      case MaxRule =>
        if !Given(rule.max) then Err("max rule requires max")
        else Ok(And(IsNotNull(c), Cmp(Le, c, Lit(rule.max.value))))
      case EqualsRule => Ok(Cmp(Eq, c, Lit(OrNull(rule.expected))))
      case NotEqualRule => Ok(Cmp(Ne, c, Lit(OrNull(rule.expected))))
      case BetweenRule =>
        if !Given(rule.min) || !Given(rule.max) then Err("between rule requires min and max")
        else Ok(And(Cmp(Ge, c, Lit(rule.min.value)), Cmp(Le, c, Lit(rule.max.value))))
      case InRule =>
        if rule.values.None? || rule.values.value == [] then Err("in rule requires values")
        else Ok(IsIn(c, rule.values.value))
      case NotInRule =>
        if rule.values.None? || rule.values.value == [] then Err("not_in rule requires values")
        else Ok(Not(IsIn(c, rule.values.value)))
      case OtherRule => Err("unsupported rule type")
  }

  /** Which rules Spark accepts. */
  lemma BuildsExactly(rule: RowRule)
    ensures BuildRowLevelPredicate(rule).Ok? <==>
            && rule.kind != OtherRule && Strip(rule.column) != ""
            && (rule.kind in {MinRule, BetweenRule} ==> rule.min.Some? && rule.min.value != Null)
            && (rule.kind in {MaxRule, BetweenRule} ==> rule.max.Some? && rule.max.value != Null)
            && (rule.kind in {InRule, NotInRule} ==> rule.values.Some? && rule.values.value != [])
  {
    hide Strip, SplitDots;
  }

  /** For a rule that Trino lowers, Spark refuses exactly the null bounds and the empty value lists. */
  lemma AcceptanceGap(rule: RowRule)
    requires LowerRowRule(rule).Ok?
    ensures BuildRowLevelPredicate(rule).Ok? <==>
            match rule.kind
            case MinRule => rule.min != Some(Null)
            case MaxRule => rule.max != Some(Null)
            case BetweenRule => rule.min != Some(Null) && rule.max != Some(Null)
            case InRule => rule.values != Some([])
            case NotInRule => rule.values != Some([])
            case _ => true
  {
    hide Strip, ExpectationText, CombineWherePredicates, ColumnText, TableOf;
    assert SplitDots("") == [""];
  }

  /** Row by row: the two engines agree on "true" for every rule both accept, and on the whole
      truth value except where Spark's min and max turn a null into "false". */
  lemma PredicateAgreement(le: Order, rule: RowRule, row: Row)
    requires !MissesParameter(rule) && BuildRowLevelPredicate(rule).Ok?
    ensures rule.kind != OtherRule
    ensures Holds(le, BuildRowLevelPredicate(rule).value, row) == Yes <==> Eval(le, RuleDenoted(rule), row) == Yes
    ensures rule.kind !in {MinRule, MaxRule} || Read(row, SplitDots(Strip(rule.column))) != Null ==>
            Holds(le, BuildRowLevelPredicate(rule).value, row) == Eval(le, RuleDenoted(rule), row)
  {
    hide Strip, SplitDots, Member;
    match rule.kind
    case InRule => case NotInRule => case NotNullRule => case IsNullRule =>
    case EqualsRule => case NotEqualRule => case BetweenRule => case MinRule => case MaxRule =>
  }

  lemma SelectionAgreement(le: Order, rule: RowRule, rows: seq<Row>)
    requires !MissesParameter(rule) && BuildRowLevelPredicate(rule).Ok? && AllDenoted(rule.filters).Some?
    ensures var inScope := Filter(rows, Keeps(le, AllDenoted(rule.filters).value));
            Selected(le, IntendedQuery(rule), rows) == Where(le, inScope, BuildRowLevelPredicate(rule).value)
  {
    hide Eval, Holds, EvalAll, BuildRowLevelPredicate, SplitDots, Strip, MissesParameter, Denoted;
    PredicateAgreement(le, rule, map[]);
    var q := IntendedQuery(rule);
    var fs := AllDenoted(rule.filters).value;
    var c := BuildRowLevelPredicate(rule).value;
    var (inFilters, passes, selects) := (Keeps(le, fs), HasTruth(le, c, Yes), Keeps(le, q.where_));
    FilterTwice(rows, inFilters, passes);
    forall row | row in rows ensures selects(row) == (inFilters(row) && passes(row)) {
      EvalAllAppend(le, fs, RuleDenoted(rule), row);
      PredicateAgreement(le, rule, row);
    }
    FilterSame(rows, selects, row => inFilters(row) && passes(row));
  }

  /** End to end: the rows selected by the query that the lowered text reads back as are exactly
      the rows Spark passes among those that satisfy the rule's filters. */
  lemma EnginesAgree(le: Order, rule: RowRule, rows: seq<Row>)
    requires LowerRowRule(rule).Ok? && BuildRowLevelPredicate(rule).Ok?
    ensures AllDenoted(rule.filters).Some? && ReadQuery(LowerRowRule(rule).value.query).Some?
    ensures var q := ReadQuery(LowerRowRule(rule).value.query).value;
            var inScope := Filter(rows, Keeps(le, AllDenoted(rule.filters).value));
            Selected(le, q, rows) == Where(le, inScope, BuildRowLevelPredicate(rule).value)
  {
    QueryRoundTrip(rule);
    AcceptanceGap(rule);
    SelectionAgreement(le, rule, rows);
  }

  // ---------------------------------------------------------------------------
  // The passed / failed split
  // ---------------------------------------------------------------------------

  lemma {:induction false} TruthSplit(le: Order, rows: seq<Row>, c: Cond)
    ensures |WithTruth(le, rows, c, Yes)| + |WithTruth(le, rows, c, No)| + |WithTruth(le, rows, c, Unknown)| == |rows|
    ensures Where(le, rows, c) == WithTruth(le, rows, c, Yes)
    ensures Where(le, rows, Not(c)) == WithTruth(le, rows, c, No)
  {
    if rows != [] {
      TruthSplit(le, rows[1..], c);
    }
  }

  /** A rule's predicate is unknown on a row exactly in these cases; the row is then in neither
      the passed nor the failed frame. */
  predicate UnknownOn(rule: RowRule, v: Value) {
    match rule.kind
    case EqualsRule => v == Null || !Given(rule.expected)
    case NotEqualRule => v == Null || !Given(rule.expected)
    case BetweenRule => v == Null
    case InRule => rule.values.Some? && (v == Null || (Null in rule.values.value && v !in rule.values.value))
    case NotInRule => rule.values.Some? && (v == Null || (Null in rule.values.value && v !in rule.values.value))
    case _ => false
  }

  function UnknownRow(rule: RowRule): (r: Row -> bool) {
    row => UnknownOn(rule, Read(row, SplitDots(Strip(rule.column))))
  }

  lemma UnknownExactly(le: Order, rule: RowRule, row: Row)
    requires BuildRowLevelPredicate(rule).Ok?
    ensures Holds(le, BuildRowLevelPredicate(rule).value, row) == Unknown <==>
            UnknownOn(rule, Read(row, SplitDots(Strip(rule.column))))
  {
    hide SplitDots, Strip;
    if rule.kind in {InRule, NotInRule} {
      MemberMeaning(le, Read(row, SplitDots(Strip(rule.column))), rule.values.value);
    }
  }

  /** Passed plus failed plus unknown is the input size, and nothing is unknown for the four kinds
      that decide null themselves. */
  lemma SplitIsComplete(le: Order, rule: RowRule, rows: seq<Row>)
    requires BuildRowLevelPredicate(rule).Ok?
    ensures var c := BuildRowLevelPredicate(rule).value;
            var unknown := Filter(rows, UnknownRow(rule));
            && |Where(le, rows, c)| + |Where(le, rows, Not(c))| + |unknown| == |rows|
            && (rule.kind in {NotNullRule, IsNullRule, MinRule, MaxRule} ==> unknown == [])
  {
    var c := BuildRowLevelPredicate(rule).value;
    var isUnknown := UnknownRow(rule);
    TruthSplit(le, rows, c);
    forall row | row in rows ensures isUnknown(row) == (Holds(le, c, row) == Unknown) {
      UnknownExactly(le, rule, row);
    }
    FilterSame(rows, HasTruth(le, c, Unknown), isUnknown);
    if rule.kind in {NotNullRule, IsNullRule, MinRule, MaxRule} {
      FilterNone(rows, isUnknown);
    }
  }
}
