/** Lowering of row rules and filter lists to Trino SQL, and what the emitted text means. */
module TrinoLowering {
  import opened Text
  import opened Sql
  import opened TrinoText

  // ---------------------------------------------------------------------------
  // Identifiers
  // ---------------------------------------------------------------------------

  function EscapedIdentifier(identifier: string): (r: Result<string>) {
    if identifier == "" then Err("Identifier cannot be empty")
    else if "" in SplitDots(identifier) then Err("Invalid Trino identifier")
    else Ok(ColumnText(SplitDots(identifier)))
  }

  /** An identifier is accepted iff none of its dotted parts is empty. */
  lemma EscapesExactly(identifier: string)
    ensures EscapedIdentifier(identifier).Ok? <==> ValidColumn(SplitDots(identifier))
    ensures EscapedIdentifier("").Err?
  {
    assert SplitDots("") == [""];
    hide ColumnText;
  }

  lemma {:induction false} EscapedPartsPrefix(parts: seq<string>, k: nat)
    requires k < |parts|
    ensures EscapedParts(parts[..k + 1]) == EscapedParts(parts[..k]) + [EscapedPart(parts[k])]
  {
    assert forall i :: 0 <= i < k ==> parts[..k + 1][i] == parts[..k][i];
  }

  method EscapeTrinoIdentifier(identifier: string) returns (r: Result<string>)
    ensures r == EscapedIdentifier(identifier)
  {
    if identifier == "" {
      return Err("Identifier cannot be empty");
    }
    var parts := SplitDots(identifier);
    var escapedParts: seq<string> := [];
    for k := 0 to |parts|
      invariant escapedParts == EscapedParts(parts[..k])
      invariant "" !in parts[..k]
    {
      if parts[k] == "" {
        return Err("Invalid Trino identifier");
      }
      EscapedPartsPrefix(parts, k);
      escapedParts := escapedParts + [EscapedPart(parts[k])];
    }
    assert parts[..|parts|] == parts;
    r := Ok(Join(escapedParts, "."));
  }

  /** Every escaped identifier reads back as its parts, and the parts rebuild the identifier. */
  lemma IdentifierRoundTrip(identifier: string, rest: string)
    requires EscapedIdentifier(identifier).Ok? && AfterColumn(rest)
    ensures ReadColumn(EscapedIdentifier(identifier).value + rest) == Some(Parsed(SplitDots(identifier), rest))
    ensures Join(SplitDots(identifier), ".") == identifier
  {
    ColumnRoundTrip(SplitDots(identifier), rest);
    SplitRoundTrip(identifier);
  }

  /** Distinct identifiers never share their escaped text. */
  lemma IdentifierInjective(a: string, b: string)
    requires EscapedIdentifier(a).Ok? && EscapedIdentifier(a) == EscapedIdentifier(b)
    ensures a == b
  {
    IdentifierRoundTrip(a, "");
    IdentifierRoundTrip(b, "");
  }

  // ---------------------------------------------------------------------------
  // Filter predicates
  // ---------------------------------------------------------------------------

  /** A filter dictionary; `None` is a missing key (for `values`, also a value that is no list). */
  datatype FilterSpec = FilterSpec(
    operator: Option<string>,
    column: Option<string>,
    value: Option<Value>,
    values: Option<seq<Value>>,
    min: Option<Value>,
    max: Option<Value>)

  /** `s.upper()` for ASCII letters. */
  function Upper(s: string): (r: string)
    ensures |r| == |s|
    ensures forall i :: 0 <= i < |s| ==> r[i] == if 'a' <= s[i] <= 'z' then (s[i] as int - 32) as char else s[i]
  {
    if s == "" then ""
    else [if 'a' <= s[0] <= 'z' then s[0] - 'a' + 'A' else s[0]] + Upper(s[1..])
  }

  function GetOr(o: Option<string>, default: string): (r: string) {
    if o.Some? && o.value != "" then o.value else default
  }

  function OperatorOf(spec: FilterSpec): (r: string) {
    var raw := Upper(Strip(GetOr(spec.operator, "=")));
    if raw == "<>" then "!=" else raw
  }

  /** The operator families the formatter tells apart. */
  datatype FilterKind = Compares(op: CompareOp) | Lists(negated: bool) | Ranges | TestsNull(negated: bool) | Unsupported

  function KindOf(operator: string): (r: FilterKind) {
    if operator == "=" then Compares(Eq)
    else if operator == "!=" then Compares(Ne)
    else if operator == ">" then Compares(Gt)
    else if operator == ">=" then Compares(Ge)
    else if operator == "<" then Compares(Lt)
    else if operator == "<=" then Compares(Le)
    else if operator == "IN" then Lists(false)
    else if operator == "NOT IN" then Lists(true)
    else if operator == "BETWEEN" then Ranges
    else if operator == "IS NULL" then TestsNull(false)
    else if operator == "IS NOT NULL" then TestsNull(true)
    else Unsupported
  }

  function FormatFilterPredicate(spec: FilterSpec): (r: Result<string>) {
    var operator := OperatorOf(spec);
    var column := Strip(GetOr(spec.column, ""));
    var left := EscapedIdentifier(column);
    if column == "" then Err("filter requires 'column'")
    else if left.Err? then left
    else match KindOf(operator)
      case Compares(_) =>
        if spec.value.None? then Err("filter requires 'value'")
        else Ok(left.value + " " + operator + " " + LiteralText(spec.value.value))
      case Lists(_) =>
        if spec.values.None? || spec.values.value == [] then Err("filter requires non-empty 'values'")
        else Ok(left.value + " " + operator + " (" + Join(LiteralTexts(spec.values.value), ", ") + ")")
      case Ranges =>
        if spec.min.None? || spec.max.None? then Err("filter requires 'min' and 'max'")
        else Ok(left.value + " BETWEEN " + LiteralText(spec.min.value) + " AND " + LiteralText(spec.max.value))
      case TestsNull(negated) => Ok(left.value + (if negated then " IS NOT NULL" else " IS NULL"))
      case Unsupported => Err("Unsupported filter operator")
  }

  /** The predicate a filter stands for, said without any text. */
  function Denoted(spec: FilterSpec): (p: Option<Pred>)
    ensures p.Some? ==> WellFormed(p.value)
  {
    var column := SplitDots(Strip(GetOr(spec.column, "")));
    if !ValidColumn(column) then None
    else match KindOf(OperatorOf(spec))
      case Compares(op) => if spec.value.Some? then Some(Comparison(column, op, spec.value.value)) else None
      case Lists(negated) =>
        if spec.values.Some? && spec.values.value != [] then Some(InList(column, negated, spec.values.value)) else None
      case Ranges =>
        if spec.min.Some? && spec.max.Some? then Some(Range(column, spec.min.value, spec.max.value)) else None
      case TestsNull(negated) => Some(NullTest(column, negated))
      case Unsupported => None
  }

  /** Which predicate each operator text denotes, for a filter on `column`: the text is read without
      surrounding spaces and case, and a missing or empty one is "=". */
  ghost predicate Denotes(spec: FilterSpec, op: string, column: Column, p: Option<Pred>) {
    && (op == "=" ==> p == ComparedBy(spec, column, Eq))
    && (op == "!=" || op == "<>" ==> p == ComparedBy(spec, column, Ne))
    && (op == ">" ==> p == ComparedBy(spec, column, Gt))
    && (op == ">=" ==> p == ComparedBy(spec, column, Ge))
    && (op == "<" ==> p == ComparedBy(spec, column, Lt))
    && (op == "<=" ==> p == ComparedBy(spec, column, Le))
    && (op == "IN" ==> p == ListedBy(spec, column, false))
    && (op == "NOT IN" ==> p == ListedBy(spec, column, true))
    && (op == "BETWEEN" ==>
          (p.Some? <==> spec.min.Some? && spec.max.Some?) &&
          (p.Some? ==> p == Some(Range(column, spec.min.value, spec.max.value))))
    && (op == "IS NULL" ==> p == Some(NullTest(column, false)))
    && (op == "IS NOT NULL" ==> p == Some(NullTest(column, true)))
    && (op !in ["=", "!=", "<>", ">", ">=", "<", "<=", "IN", "NOT IN", "BETWEEN", "IS NULL", "IS NOT NULL"] ==>
          p == None)
  }

  ghost function ComparedBy(spec: FilterSpec, column: Column, op: CompareOp): (p: Option<Pred>) {
    if spec.value.Some? then Some(Comparison(column, op, spec.value.value)) else None
  }

  ghost function ListedBy(spec: FilterSpec, column: Column, negated: bool): (p: Option<Pred>) {
    if spec.values.Some? && spec.values.value != [] then Some(InList(column, negated, spec.values.value)) else None
  }

  lemma OperatorMeaning(spec: FilterSpec)
    ensures var column := SplitDots(Strip(if spec.column.Some? then spec.column.value else ""));
            var text := if spec.operator.Some? && spec.operator.value != "" then spec.operator.value else "=";
            if column == [] || "" in column then Denoted(spec) == None
            else Denotes(spec, Upper(Strip(text)), column, Denoted(spec))
  {
    hide SplitDots, Strip, Upper, KindOf, Denotes;
    var text := if spec.operator.Some? && spec.operator.value != "" then spec.operator.value else "=";
    DenotesByOperator(spec, Upper(Strip(text)));
  }

  lemma DenotesByOperator(spec: FilterSpec, op: string)
    requires OperatorOf(spec) == if op == "<>" then "!=" else op
    ensures var column := SplitDots(Strip(GetOr(spec.column, "")));
            ValidColumn(column) ==> Denotes(spec, op, column, Denoted(spec))
  {
    hide SplitDots, Strip, OperatorOf, KindOf;
    if op == "<>" {
      KindTable("!=");
    } else {
      KindTable(op);
    }
  }

  lemma KindTable(op: string)
    ensures op == "=" ==> KindOf(op) == Compares(Eq)
    ensures op == "!=" ==> KindOf(op) == Compares(Ne)
    ensures op == ">" ==> KindOf(op) == Compares(Gt)
    ensures op == ">=" ==> KindOf(op) == Compares(Ge)
    ensures op == "<" ==> KindOf(op) == Compares(Lt)
    ensures op == "<=" ==> KindOf(op) == Compares(Le)
    ensures op == "IN" ==> KindOf(op) == Lists(false)
    ensures op == "NOT IN" ==> KindOf(op) == Lists(true)
    ensures op == "BETWEEN" ==> KindOf(op) == Ranges
    ensures op == "IS NULL" ==> KindOf(op) == TestsNull(false)
    ensures op == "IS NOT NULL" ==> KindOf(op) == TestsNull(true)
    ensures !KindOf(op).Unsupported? ==>
              op in ["=", "!=", ">", ">=", "<", "<=", "IN", "NOT IN", "BETWEEN", "IS NULL", "IS NOT NULL"]
  {
  }

  lemma CompareText(operator: string)
    requires KindOf(operator).Compares?
    ensures OpText(KindOf(operator).op) == operator
  {
  }

  lemma ListText(operator: string)
    requires KindOf(operator).Lists?
    ensures operator == if KindOf(operator).negated then "NOT IN" else "IN"
  {
  }

  lemma AssembledText(left: string, operator: string, body: string, p: Pred)
    requires left == ColumnText(p.col)
    ensures p.Comparison? && operator == OpText(p.op) && body == LiteralText(p.value)
            ==> left + " " + operator + " " + body == PredText(p)
    ensures p.InList? && operator == (if p.negated then "NOT IN" else "IN") &&
            body == Join(LiteralTexts(p.values), ", ")
            ==> left + " " + operator + " (" + body + ")" == PredText(p)
  {
    hide LiteralText, ColumnText, LiteralTexts, Join;
    assert left + " " + operator + " " + body == left + " " + (operator + " " + body);
    assert left + " " + operator + " (" + body + ")" == left + " " + (operator + " (" + body + ")");
    assert "NOT IN" + " (" == "NOT IN (" && "IN" + " (" == "IN (";
  }

  lemma KeywordText(left: string, p: Pred)
    requires left == ColumnText(p.col)
    ensures p.Range? ==> left + " BETWEEN " + LiteralText(p.low) + " AND " + LiteralText(p.high) == PredText(p)
    ensures p.NullTest? ==> left + (if p.negated then " IS NOT NULL" else " IS NULL") == PredText(p)
  {
    hide LiteralText, ColumnText;
    if p.Range? {
      var (a, b) := (LiteralText(p.low), LiteralText(p.high));
      assert left + " BETWEEN " + a + " AND " + b == left + " " + ("BETWEEN " + a + " AND " + b);
    }
    assert " " + "IS NULL" == " IS NULL" && " " + "IS NOT NULL" == " IS NOT NULL";
    if p.NullTest? {
      assert left + (" " + TailText(p)) == left + " " + TailText(p);
    }
  }

  /** A filter is accepted exactly when it denotes a predicate, and then its text is that predicate's. */
  lemma FilterMeaning(spec: FilterSpec)
    ensures FormatFilterPredicate(spec).Ok? <==> Denoted(spec).Some?
    ensures Denoted(spec).Some? ==> FormatFilterPredicate(spec).value == PredText(Denoted(spec).value)
  {
    hide LiteralText, ColumnText, LiteralTexts, Join, PredText, Strip, Upper;
    var operator := OperatorOf(spec);
    assert SplitDots("") == [""];
    if Denoted(spec).Some? {
      var p := Denoted(spec).value;
      match p
      case Comparison(_, _, v) =>
        CompareText(operator);
        AssembledText(ColumnText(p.col), operator, LiteralText(v), p);
      case InList(_, _, vs) =>
        ListText(operator);
        AssembledText(ColumnText(p.col), operator, Join(LiteralTexts(vs), ", "), p);
      case Range(_, _, _) => KeywordText(ColumnText(p.col), p);
      case NullTest(_, _) => KeywordText(ColumnText(p.col), p);
    }
  }

  // ---------------------------------------------------------------------------
  // Row rules
  // ---------------------------------------------------------------------------

  datatype RuleKind =
    | NotNullRule | IsNullRule | EqualsRule | NotEqualRule | BetweenRule
    | InRule | NotInRule | MinRule | MaxRule | OtherRule

  /** A row rule; an absent parameter is `None`, a null one `Some(Null)`. */
  datatype RowRule = RowRule(
    kind: RuleKind,
    column: string,
    table: string,
    expected: Option<Value>,
    min: Option<Value>,
    max: Option<Value>,
    values: Option<seq<Value>>,
    filters: seq<FilterSpec>)

  datatype Lowered = Lowered(expectation: string, query: string)

  function FormatAll(filters: seq<FilterSpec>): (r: Result<seq<string>>) {
    if filters == [] then Ok([])
    else match FormatFilterPredicate(filters[0])
      case Err(e) => Err(e)
      case Ok(first) =>
        match FormatAll(filters[1..])
        case Err(e) => Err(e)
        case Ok(rest) => Ok([first] + rest)
  }

  function CombineWherePredicates(filters: seq<FilterSpec>, expectation: string): (r: Result<string>) {
    match FormatAll(filters)
    case Err(e) => Err(e)
    case Ok(texts) => Ok(Join(texts + [expectation], " AND "))
  }

  predicate MissesParameter(rule: RowRule) {
    match rule.kind
    case MinRule => rule.min.None?
    case MaxRule => rule.max.None?
    case EqualsRule => rule.expected.None?
    case NotEqualRule => rule.expected.None?
    case InRule => rule.values.None?
    case NotInRule => rule.values.None?
    case BetweenRule => rule.min.None? || rule.max.None?
    case _ => false
  }

  function ExpectationText(rule: RowRule, column: string): (r: string)
    requires !MissesParameter(rule) && rule.kind != OtherRule
  {
    match rule.kind
    case NotNullRule => column + " IS NOT NULL"
    case IsNullRule => column + " IS NULL"
    case EqualsRule => column + " = " + LiteralText(rule.expected.value)
    case NotEqualRule => column + " != " + LiteralText(rule.expected.value)
    case BetweenRule =>
      column + " BETWEEN " + LiteralText(rule.min.value) + " AND " + LiteralText(rule.max.value)
    case InRule => column + " IN (" + Join(LiteralTexts(rule.values.value), ", ") + ")"
    case NotInRule => column + " NOT IN (" + Join(LiteralTexts(rule.values.value), ", ") + ")"
    case MinRule => column + " >= " + LiteralText(rule.min.value)
    case MaxRule => column + " <= " + LiteralText(rule.max.value)
  }

  function TableOf(rule: RowRule): (r: string) {
    var table := Strip(if rule.table == "" then "source" else rule.table);
    if table == "" then "source" else table
  }

  function LowerRowRule(rule: RowRule): (r: Result<Lowered>) {
    var name := Strip(rule.column);
    var column := EscapedIdentifier(name);
    var table := EscapedIdentifier(TableOf(rule));
    if rule.kind == OtherRule then Err("unsupported rule type")
    else if name == "" then Err("rule requires 'column'")
    else if column.Err? then Err(column.message)
    else if table.Err? then Err(table.message)
    else if MissesParameter(rule) then Err("rule requires a parameter")
    else
      var expectation := ExpectationText(rule, column.value);
      match CombineWherePredicates(rule.filters, expectation)
      case Err(e) => Err(e)
      case Ok(where_) =>
        Ok(Lowered(expectation, "SELECT * FROM " + table.value + " WHERE " + where_))
  }

  /** The table of a rule is its name without surrounding spaces, and "source" when that is empty. */
  lemma TableExactly(rule: RowRule)
    ensures TableOf(rule) == if Strip(rule.table) == "" then "source" else Strip(rule.table)
  {
    StripAround("", "source", "");
    assert "" + "source" + "" == "source";
  }

  /** Which rules are lowered: the kind is known, column and table are names, the parameters the kind
      needs are there, and every filter denotes a predicate. */
  lemma LowersExactly(rule: RowRule)
    ensures LowerRowRule(rule).Ok? <==>
            && rule.kind != OtherRule
            && ValidColumn(SplitDots(Strip(rule.column))) && ValidColumn(SplitDots(TableOf(rule)))
            && (rule.kind in {MinRule, BetweenRule} ==> rule.min.Some?)
            && (rule.kind in {MaxRule, BetweenRule} ==> rule.max.Some?)
            && (rule.kind in {EqualsRule, NotEqualRule} ==> rule.expected.Some?)
            && (rule.kind in {InRule, NotInRule} ==> rule.values.Some?)
            && AllDenoted(rule.filters).Some?
  {
    FormatAllMeaning(rule.filters);
    EscapesExactly(Strip(rule.column));
    EscapesExactly(TableOf(rule));
    hide Strip, TableOf, AllDenoted, FormatAll, ExpectationText, EscapedIdentifier, SplitDots, ValidColumn;
  }

  /** The predicate a row rule stands for, said without any text. */
  function RuleDenoted(rule: RowRule): (p: Pred)
    requires !MissesParameter(rule) && rule.kind != OtherRule
    ensures p.col == SplitDots(Strip(rule.column))
  {
    var column := SplitDots(Strip(rule.column));
    match rule.kind
    case NotNullRule => NullTest(column, true)
    case IsNullRule => NullTest(column, false)
    case EqualsRule => Comparison(column, Eq, rule.expected.value)
    case NotEqualRule => Comparison(column, Ne, rule.expected.value)
    case BetweenRule => Range(column, rule.min.value, rule.max.value)
    case InRule => InList(column, false, rule.values.value)
    case NotInRule => InList(column, true, rule.values.value)
    case MinRule => Comparison(column, Ge, rule.min.value)
    case MaxRule => Comparison(column, Le, rule.max.value)
  }

  /** What the lowering of a rule is meant to select from its table: the filters, then the rule. */
  function AllDenoted(filters: seq<FilterSpec>): (r: Option<seq<Pred>>)
    ensures r.Some? ==> |r.value| == |filters| && forall p :: p in r.value ==> WellFormed(p)
    ensures r.Some? ==> forall i :: 0 <= i < |filters| ==> Denoted(filters[i]) == Some(r.value[i])
  {
    if filters == [] then Some([])
    else if Denoted(filters[0]).None? || AllDenoted(filters[1..]).None? then None
    else Some([Denoted(filters[0]).value] + AllDenoted(filters[1..]).value)
  }

  lemma {:induction false} FormatAllMeaning(filters: seq<FilterSpec>)
    ensures FormatAll(filters).Ok? <==> AllDenoted(filters).Some?
    ensures FormatAll(filters).Ok? ==> FormatAll(filters).value == PredTexts(AllDenoted(filters).value)
  {
    if filters != [] {
      FilterMeaning(filters[0]);
      FormatAllMeaning(filters[1..]);
      if FormatAll(filters).Ok? {
        var ps := AllDenoted(filters).value;
        assert ps[1..] == AllDenoted(filters[1..]).value;
      }
    }
  }

  lemma SpacedText(column: string, word: string, spaced: string, body: string, p: Pred)
    requires column == ColumnText(p.col)
    ensures p.Comparison? && word == OpText(p.op) && spaced == " " + word + " " && body == LiteralText(p.value)
            ==> column + spaced + body == PredText(p)
    ensures p.InList? && word == (if p.negated then "NOT IN" else "IN") && spaced == " " + word + " (" &&
            body == Join(LiteralTexts(p.values), ", ")
            ==> column + spaced + body + ")" == PredText(p)
  {
    AssembledText(column, word, body, p);
    assert column + " " + word + " " + body == column + (" " + word + " ") + body;
    assert column + " " + word + " (" + body + ")" == column + (" " + word + " (") + body + ")";
  }

  lemma ExpectationMeaning(rule: RowRule)
    requires !MissesParameter(rule) && rule.kind != OtherRule
    ensures ExpectationText(rule, ColumnText(SplitDots(Strip(rule.column)))) == PredText(RuleDenoted(rule))
  {
    hide LiteralText, Join, LiteralTexts, ColumnText, PredText, SplitDots, Strip;
    var p := RuleDenoted(rule);
    var column := ColumnText(p.col);
    match rule.kind
    case NotNullRule => KeywordText(column, p);
    case IsNullRule => KeywordText(column, p);
    case BetweenRule => KeywordText(column, p);
    case EqualsRule => SpacedText(column, "=", " = ", LiteralText(p.value), p);
    case NotEqualRule => SpacedText(column, "!=", " != ", LiteralText(p.value), p);
    case MinRule => SpacedText(column, ">=", " >= ", LiteralText(p.value), p);
    case MaxRule => SpacedText(column, "<=", " <= ", LiteralText(p.value), p);
    case InRule => SpacedText(column, "IN", " IN (", Join(LiteralTexts(p.values), ", "), p);
    case NotInRule => SpacedText(column, "NOT IN", " NOT IN (", Join(LiteralTexts(p.values), ", "), p);
  }

  lemma {:induction false} PredTextsAppend(ps: seq<Pred>, p: Pred)
    ensures PredTexts(ps + [p]) == PredTexts(ps) + [PredText(p)]
  {
    if ps == [] {
      assert ps + [p] == [p];
    } else {
      assert (ps + [p])[1..] == ps[1..] + [p];
      PredTextsAppend(ps[1..], p);
    }
  }

  // ---------------------------------------------------------------------------
  // The emitted query reads back
  // ---------------------------------------------------------------------------

  datatype Query = Query(table: Column, where_: seq<Pred>)

  function ReadQuery(s: string): (r: Option<Query>) {
    match Skip(s, "SELECT * FROM ")
    case None => None
    case Some(rest) =>
      match ReadColumn(rest)
      case None => None
      case Some(Parsed(table, tail)) =>
        if Skip(tail, " WHERE ").None? then None
        else match ReadWhere(Skip(tail, " WHERE ").value)
          case None => None
          case Some(ps) => Some(Query(table, ps))
  }

  function IntendedQuery(rule: RowRule): (q: Query)
    requires !MissesParameter(rule) && rule.kind != OtherRule && AllDenoted(rule.filters).Some?
  {
    Query(SplitDots(TableOf(rule)), AllDenoted(rule.filters).value + [RuleDenoted(rule)])
  }

  lemma LoweredParts(rule: RowRule)
    requires LowerRowRule(rule).Ok?
    ensures !MissesParameter(rule) && rule.kind != OtherRule && AllDenoted(rule.filters).Some?
    ensures ValidColumn(SplitDots(Strip(rule.column))) && ValidColumn(SplitDots(TableOf(rule)))
    ensures LowerRowRule(rule).value.expectation == PredText(RuleDenoted(rule))
    ensures LowerRowRule(rule).value.query ==
            "SELECT * FROM " +
            (ColumnText(SplitDots(TableOf(rule))) + (" WHERE " + WhereText(IntendedQuery(rule).where_)))
  {
    hide ColumnText, Denoted, ExpectationText, FormatFilterPredicate, Strip, TableOf, AllDenoted, FormatAll, PredText;
    FormatAllMeaning(rule.filters);
    ExpectationMeaning(rule);
    var ps := AllDenoted(rule.filters).value;
    PredTextsAppend(ps, RuleDenoted(rule));
    var (t, w) := (ColumnText(SplitDots(TableOf(rule))), WhereText(IntendedQuery(rule).where_));
    assert "SELECT * FROM " + t + " WHERE " + w == "SELECT * FROM " + (t + (" WHERE " + w));
  }

  lemma QueryFrame(table: Column, w: string)
    requires ValidColumn(table)
    ensures ReadQuery("SELECT * FROM " + (ColumnText(table) + (" WHERE " + w))) ==
            if ReadWhere(w).Some? then Some(Query(table, ReadWhere(w).value)) else None
  {
    var rest := ColumnText(table) + (" WHERE " + w);
    SkipHit("SELECT * FROM ", rest);
    ColumnRoundTrip(table, " WHERE " + w);
    SkipHit(" WHERE ", w);
  }

  /** One list of values left empty makes the conjunction that ends in it unreadable. */
  lemma EmptyListPred(p: Pred)
    requires p.InList? && p.values == [] && ValidColumn(p.col)
    ensures ReadPred(PredText(p)) == None
  {
    hide ColumnText, ReadColumn, ValidColumn;
    var (word, glue) := if p.negated then ("NOT", " IN (") else ("IN", " (");
    var tail := TailText(p);
    assert PredText(p) == ColumnText(p.col) + (" " + tail);
    ColumnRoundTrip(p.col, " " + tail);
    SkipHit(" ", tail);
    assert tail == word + (glue + ")");
    WordRoundTrip(word, glue + ")");
    SkipHit(glue, ")");
    EmptyListUnreadable("");
    assert ")" + "" == ")";
  }

  lemma WhereStuck(s: string, p: Pred, tail: string)
    requires ReadPred(s) == Some(Parsed(p, " AND " + tail)) && ReadWhere(tail) == None
    ensures ReadWhere(s) == None
  {
    SkipHit(" AND ", tail);
  }

  lemma {:induction false} EmptyListWhere(ps: seq<Pred>, bad: Pred)
    requires forall p :: p in ps ==> WellFormed(p)
    requires bad.InList? && bad.values == [] && ValidColumn(bad.col)
    ensures ReadWhere(WhereText(ps + [bad])) == None
  {
    var all := ps + [bad];
    WhereTextSplit(all);
    EmptyListPred(bad);
    if ps == [] {
      assert all == [bad] && WhereText(all) == PredText(bad);
    } else {
      assert ps[0] in ps && all[1..] == ps[1..] + [bad];
      EmptyListWhere(ps[1..], bad);
      FirstPred(ps[0], WhereText(all[1..]));
      WhereStuck(WhereText(all), ps[0], WhereText(all[1..]));
    }
  }

  /** A lowered query reads back as the intended table and predicates, in order, exactly when the
      rule does not list an empty set of values; otherwise its text is not a query at all. */
  lemma QueryRoundTrip(rule: RowRule)
    requires LowerRowRule(rule).Ok?
    ensures !MissesParameter(rule) && rule.kind != OtherRule && AllDenoted(rule.filters).Some?
    ensures ReadQuery(LowerRowRule(rule).value.query) ==
            if rule.kind in {InRule, NotInRule} && rule.values == Some([]) then None else Some(IntendedQuery(rule))
  {
    hide LowerRowRule, ReadQuery, WhereText, ReadWhere, Denoted, SplitDots, Strip, TableOf;
    LoweredParts(rule);
    var q := IntendedQuery(rule);
    QueryFrame(q.table, WhereText(q.where_));
    var ps := AllDenoted(rule.filters).value;
    if rule.kind in {InRule, NotInRule} && rule.values == Some([]) {
      EmptyListWhere(ps, RuleDenoted(rule));
    } else {
      WhereRoundTrip(q.where_);
    }
  }

  /** A concrete rule whose lowered text no SQL reader accepts. */
  lemma EmptyListExample()
    ensures var rule := RowRule(InRule, "c", "t", None, None, None, Some([]), []);
            LowerRowRule(rule).Ok? && LowerRowRule(rule).value.expectation == "c IN ()" &&
            ReadQuery(LowerRowRule(rule).value.query) == None
  {
    hide ReadQuery;
    var rule := RowRule(InRule, "c", "t", None, None, None, Some([]), []);
    SimpleName('c');
    SimpleName('t');
    QueryRoundTrip(rule);
  }

  lemma SimpleName(c: char)
    requires IsIdStart(c)
    ensures Strip([c]) == [c] && EscapedIdentifier([c]) == Ok([c])
  {
    assert SplitDots("") == [""];
    assert [c][1..] == "" && [c] + "" == [c] && [""][1..] == [];
    assert SplitDots([c]) == [[c] + ""] + [""][1..] == [[c]];
    assert EscapedParts([[c]]) == [[c]];
    assert !IsSpace(c);
  }

  // ---------------------------------------------------------------------------
  // What the query selects
  // ---------------------------------------------------------------------------

  function Eval(le: Order, p: Pred, row: Row): (t: Truth) {
    var v := Read(row, p.col);
    match p
    case Comparison(_, op, literal) => Compare(le, op, v, literal)
    case InList(_, negated, vs) => if negated then Member(le, v, vs).Not() else Member(le, v, vs)
    case Range(_, low, high) => Within(le, v, low, high)
    case NullTest(_, negated) => Lift((v == Null) != negated)
  }

  function EvalAll(le: Order, ps: seq<Pred>, row: Row): (t: Truth) {
    if ps == [] then Yes else Eval(le, ps[0], row).And(EvalAll(le, ps[1..], row))
  }

  /** WHERE keeps a row iff the conjunction is true, not merely unknown. */
  function Keeps(le: Order, ps: seq<Pred>): (r: Row -> bool) {
    row => EvalAll(le, ps, row) == Yes
  }

  function Selected(le: Order, q: Query, rows: seq<Row>): (r: seq<Row>) { Filter(rows, Keeps(le, q.where_)) }

  lemma {:induction false} EvalAllAppend(le: Order, ps: seq<Pred>, p: Pred, row: Row)
    ensures EvalAll(le, ps + [p], row) == Yes <==> EvalAll(le, ps, row) == Yes && Eval(le, p, row) == Yes
  {
    if ps == [] {
      assert ps + [p] == [p];
      assert EvalAll(le, [p], row) == Eval(le, p, row).And(EvalAll(le, [p][1..], row));
    } else {
      assert (ps + [p])[1..] == ps[1..] + [p];
      EvalAllAppend(le, ps[1..], p, row);
    }
  }
}
