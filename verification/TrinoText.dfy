/** The SQL text the Trino lowering emits for identifiers, literals and predicates, and a reader
    for that text: quoted literals follow section 5.3 of ISO/IEC 9075-2, delimited identifiers
    section 5.2, BETWEEN section 8.3 and IN section 8.4. */
module TrinoText {
  import opened Text
  import opened Sql

  datatype Pred =
    | Comparison(col: Column, op: CompareOp, value: Value)
    | InList(col: Column, negated: bool, values: seq<Value>)
    | Range(col: Column, low: Value, high: Value)
    | NullTest(col: Column, negated: bool)

  // ---------------------------------------------------------------------------
  // Emitting text
  // ---------------------------------------------------------------------------

  predicate IsIdStart(c: char) { 'a' <= c <= 'z' || 'A' <= c <= 'Z' || c == '_' }

  predicate IsIdChar(c: char) { IsIdStart(c) || IsDigit(c) }

  predicate IsSimpleIdentifier(part: string) {
    part != "" && IsIdStart(part[0]) && forall i :: 0 <= i < |part| ==> IsIdChar(part[i])
  }

  /** `s.replace(q, qq)` for a one-character `q`. */
  function Doubled(s: string, q: char): (r: string) {
    if s == "" then "" else (if s[0] == q then [q, q] else [s[0]]) + Doubled(s[1..], q)
  }

  function Quoted(s: string, q: char): (r: string) { [q] + Doubled(s, q) + [q] }

  function EscapedPart(part: string): (r: string) {
    if IsSimpleIdentifier(part) then part else Quoted(part, '"')
  }

  function Join(parts: seq<string>, separator: string): (r: string) {
    if parts == [] then ""
    else if |parts| == 1 then parts[0]
    else parts[0] + separator + Join(parts[1..], separator)
  }

  /** `s.split(".")`. */
  function SplitDots(s: string): (parts: seq<string>)
    ensures parts != []
  {
    if s == "" then [""]
    else if s[0] == '.' then [""] + SplitDots(s[1..])
    else var tail := SplitDots(s[1..]); [[s[0]] + tail[0]] + tail[1..]
  }

  /** A column as the grammar wants it: at least one part, none empty. */
  predicate ValidColumn(column: Column) { column != [] && "" !in column }

  function EscapedParts(column: Column): (r: seq<string>)
    ensures |r| == |column|
    ensures forall i :: 0 <= i < |column| ==> r[i] == EscapedPart(column[i])
  {
    if column == [] then [] else [EscapedPart(column[0])] + EscapedParts(column[1..])
  }

  function ColumnText(column: Column): (r: string) { Join(EscapedParts(column), ".") }

  function LiteralText(v: Value): (r: string) {
    match v
    case Null => "NULL"
    case Bool(b) => if b then "TRUE" else "FALSE"
    case Int(i) => IntText(i)
    case Str(s) => Quoted(s, '\'')
  }

  function LiteralTexts(values: seq<Value>): (r: seq<string>)
    ensures |r| == |values|
  {
    if values == [] then [] else [LiteralText(values[0])] + LiteralTexts(values[1..])
  }

  function OpText(op: CompareOp): (r: string) {
    match op
    case Eq => "=" case Ne => "!=" case Gt => ">" case Ge => ">=" case Lt => "<" case Le => "<="
  }

  function TailText(p: Pred): (r: string) {
    match p
    case Comparison(_, op, v) => OpText(op) + " " + LiteralText(v)
    case InList(_, negated, vs) =>
      (if negated then "NOT IN (" else "IN (") + Join(LiteralTexts(vs), ", ") + ")"
    case Range(_, low, high) => "BETWEEN " + LiteralText(low) + " AND " + LiteralText(high)
    case NullTest(_, negated) => if negated then "IS NOT NULL" else "IS NULL"
  }

  function PredText(p: Pred): (r: string) { ColumnText(p.col) + " " + TailText(p) }

  function PredTexts(ps: seq<Pred>): (r: seq<string>)
    ensures |r| == |ps|
  {
    if ps == [] then [] else [PredText(ps[0])] + PredTexts(ps[1..])
  }

  function WhereText(ps: seq<Pred>): (r: string) { Join(PredTexts(ps), " AND ") }

  /** What the grammar accepts: a proper column and, for IN, at least one value. */
  predicate WellFormed(p: Pred) {
    ValidColumn(p.col) && (p.InList? ==> p.values != [])
  }

  /** A part is left unquoted exactly when it is a letter or underscore followed by letters, digits and
      underscores. */
  lemma EscapedPartExactly(part: string)
    ensures EscapedPart(part) == part <==>
            && part != "" && ('a' <= part[0] <= 'z' || 'A' <= part[0] <= 'Z' || part[0] == '_')
            && forall i :: 0 <= i < |part| ==>
                 'a' <= part[i] <= 'z' || 'A' <= part[i] <= 'Z' || '0' <= part[i] <= '9' || part[i] == '_'
    ensures EscapedPart(part) != part ==> EscapedPart(part) == Quoted(part, '"')
  {
    DoubledLength(part, '"');
  }

  lemma {:induction false} DoubledLength(s: string, q: char)
    ensures |Doubled(s, q)| >= |s|
  {
    if s != "" { DoubledLength(s[1..], q); }
  }

  // ---------------------------------------------------------------------------
  // Reading text
  // ---------------------------------------------------------------------------

  datatype Parsed<+T> = Parsed(value: T, rest: string)

  /** `rest` does not continue a token made of `inside` characters. */
  predicate Stops(rest: string, inside: char -> bool) { rest == "" || !inside(rest[0]) }

  function Span(s: string, inside: char -> bool): (n: nat)
    ensures n <= |s|
    ensures forall i :: 0 <= i < n ==> inside(s[i])
  {
    if s == "" || !inside(s[0]) then 0 else 1 + Span(s[1..], inside)
  }

  /** Drops a fixed prefix. */
  function Skip(s: string, prefix: string): (r: Option<string>)
    ensures r.Some? ==> s == prefix + r.value
  {
    if prefix <= s then Some(s[|prefix|..]) else None
  }

  /** The body of a quoted token whose opening quote has been read. */
  function ReadQuoted(s: string, q: char): (r: Option<Parsed<string>>)
    ensures r.Some? ==> |r.value.rest| < |s|
  {
    if s == "" then None
    else if s[0] != q then
      (match ReadQuoted(s[1..], q)
       case Some(p) => Some(Parsed([s[0]] + p.value, p.rest))
       case None => None)
    else if |s| > 1 && s[1] == q then
      (match ReadQuoted(s[2..], q)
       case Some(p) => Some(Parsed([q] + p.value, p.rest))
       case None => None)
    else Some(Parsed("", s[1..]))
  }

  function ReadPart(s: string): (r: Option<Parsed<string>>)
    ensures r.Some? ==> |r.value.rest| < |s|
  {
    if s == "" then None
    else if s[0] == '"' then ReadQuoted(s[1..], '"')
    else if IsIdStart(s[0]) then
      var n := Span(s, IsIdChar);
      assert n > 0;
      Some(Parsed(s[..n], s[n..]))
    else None
  }

  function ReadColumn(s: string): (r: Option<Parsed<Column>>)
    ensures r.Some? ==> |r.value.rest| < |s|
    decreases |s|
  {
    match ReadPart(s)
    case None => None
    case Some(Parsed(part, rest)) =>
      if rest != "" && rest[0] == '.' then
        (match ReadColumn(rest[1..])
         case Some(p) => Some(Parsed([part] + p.value, p.rest))
         case None => None)
      else Some(Parsed([part], rest))
  }

  function ReadNumber(s: string): (r: Option<Parsed<nat>>)
    ensures r.Some? ==> |r.value.rest| < |s|
  {
    var n := Span(s, IsDigit);
    if n == 0 then None else Some(Parsed(DigitsValue(s[..n]), s[n..]))
  }

  function ReadLiteral(s: string): (r: Option<Parsed<Value>>)
    ensures r.Some? ==> |r.value.rest| < |s|
  {
    if s == "" then None
    else if s[0] == '\'' then
      (match ReadQuoted(s[1..], '\'')
       case Some(p) => Some(Parsed(Str(p.value), p.rest))
       case None => None)
    else if s[0] == '-' then
      (match ReadNumber(s[1..])
       case Some(p) => Some(Parsed(Int(0 - p.value), p.rest))
       case None => None)
    else if IsDigit(s[0]) then
      (match ReadNumber(s)
       case Some(p) => Some(Parsed(Int(p.value), p.rest))
       case None => None)
    else
      var n := Span(s, IsIdChar);
      var word := s[..n];
      if word == "NULL" then Some(Parsed(Null, s[n..]))
      else if word == "TRUE" then Some(Parsed(Bool(true), s[n..]))
      else if word == "FALSE" then Some(Parsed(Bool(false), s[n..]))
      else None
  }

  /** The literals of an IN list, up to and including its closing parenthesis. */
  function ReadLiterals(s: string): (r: Option<Parsed<seq<Value>>>)
    ensures r.Some? ==> |r.value.rest| < |s| && r.value.value != []
    decreases |s|
  {
    match ReadLiteral(s)
    case None => None
    case Some(Parsed(v, rest)) =>
      if Skip(rest, ", ").Some? then
        (match ReadLiterals(Skip(rest, ", ").value)
         case Some(p) => Some(Parsed([v] + p.value, p.rest))
         case None => None)
      else if Skip(rest, ")").Some? then Some(Parsed([v], Skip(rest, ")").value))
      else None
  }

  predicate IsOpChar(c: char) { c in ['=', '!', '<', '>'] }

  /** A comparison operator is the longest run of operator characters. */
  function ReadOp(s: string): (r: Option<Parsed<CompareOp>>)
    ensures r.Some? ==> |r.value.rest| < |s|
  {
    var n := Span(s, IsOpChar);
    var (op, rest) := (s[..n], s[n..]);
    if op == "=" then Some(Parsed(Eq, rest))
    else if op == "!=" || op == "<>" then Some(Parsed(Ne, rest))
    else if op == ">" then Some(Parsed(Gt, rest))
    else if op == ">=" then Some(Parsed(Ge, rest))
    else if op == "<" then Some(Parsed(Lt, rest))
    else if op == "<=" then Some(Parsed(Le, rest))
    else None
  }

  function ReadComparison(col: Column, s: string): (r: Option<Parsed<Pred>>)
    ensures r.Some? ==> |r.value.rest| < |s|
  {
    match ReadOp(s)
    case None => None
    case Some(Parsed(op, rest)) =>
      if Skip(rest, " ").None? then None else
      match ReadLiteral(Skip(rest, " ").value)
      case None => None
      case Some(Parsed(v, rest')) => Some(Parsed(Comparison(col, op, v), rest'))
  }

  function ReadRange(col: Column, s: string): (r: Option<Parsed<Pred>>)
    ensures r.Some? ==> |r.value.rest| < |s|
  {
    match ReadLiteral(s)
    case None => None
    case Some(Parsed(low, rest)) =>
      if Skip(rest, " AND ").None? then None else
      match ReadLiteral(Skip(rest, " AND ").value)
      case None => None
      case Some(Parsed(high, rest')) => Some(Parsed(Range(col, low, high), rest'))
  }

  function ReadList(col: Column, negated: bool, s: string): (r: Option<Parsed<Pred>>)
    ensures r.Some? ==> |r.value.rest| < |s|
  {
    match ReadLiterals(s)
    case None => None
    case Some(Parsed(vs, rest)) => Some(Parsed(InList(col, negated, vs), rest))
  }

  function ReadNullTest(col: Column, s: string): (r: Option<Parsed<Pred>>)
    ensures r.Some? ==> |r.value.rest| < |s|
  {
    if Skip(s, " NOT NULL").Some? then Some(Parsed(NullTest(col, true), Skip(s, " NOT NULL").value))
    else if Skip(s, " NULL").Some? then Some(Parsed(NullTest(col, false), Skip(s, " NULL").value))
    else None
  }

  /** What follows the column and its space; the leading keyword decides. */
  function ReadTail(col: Column, s: string): (r: Option<Parsed<Pred>>)
    ensures r.Some? ==> |r.value.rest| < |s|
  {
    var n := Span(s, IsIdChar);
    var (word, rest) := (s[..n], s[n..]);
    if word == "" then ReadComparison(col, s)
    else if word == "IS" then ReadNullTest(col, rest)
    else if word == "BETWEEN" then
      if Skip(rest, " ").Some? then ReadRange(col, Skip(rest, " ").value) else None
    else if word == "NOT" then
      if Skip(rest, " IN (").Some? then ReadList(col, true, Skip(rest, " IN (").value) else None
    else if word == "IN" then
      if Skip(rest, " (").Some? then ReadList(col, false, Skip(rest, " (").value) else None
    else None
  }

  function ReadPred(s: string): (r: Option<Parsed<Pred>>)
    ensures r.Some? ==> |r.value.rest| < |s|
  {
    match ReadColumn(s)
    case None => None
    case Some(Parsed(col, rest)) =>
      if Skip(rest, " ").Some? then ReadTail(col, Skip(rest, " ").value) else None
  }

  /** A whole WHERE text: predicates joined by AND, nothing left over. */
  function ReadWhere(s: string): (r: Option<seq<Pred>>)
    decreases |s|
  {
    match ReadPred(s)
    case None => None
    case Some(Parsed(p, rest)) =>
      if rest == "" then Some([p])
      else if Skip(rest, " AND ").Some? then
        (match ReadWhere(Skip(rest, " AND ").value)
         case Some(ps) => Some([p] + ps)
         case None => None)
      else None
  }

  // ---------------------------------------------------------------------------
  // Reading inverts emitting
  // ---------------------------------------------------------------------------

  lemma SkipHit(prefix: string, rest: string)
    ensures Skip(prefix + rest, prefix) == Some(rest)
  {
    assert (prefix + rest)[|prefix|..] == rest;
  }

  lemma SkipMiss(s: string, prefix: string, k: nat)
    requires k < |s| && k < |prefix| && s[k] != prefix[k]
    ensures Skip(s, prefix) == None
  {
  }

  lemma {:induction false} SpanStops(token: string, rest: string, inside: char -> bool)
    requires forall i :: 0 <= i < |token| ==> inside(token[i])
    requires Stops(rest, inside)
    ensures Span(token + rest, inside) == |token|
  {
    if token == "" {
      assert token + rest == rest;
    } else {
      assert (token + rest)[1..] == token[1..] + rest;
      SpanStops(token[1..], rest, inside);
    }
  }

  /** A quoted token is self-delimiting: its reader stops exactly at its end, whatever quotes
      it holds, as soon as the next character is not a quote. */
  lemma {:induction false} QuotedRoundTrip(s: string, q: char, rest: string)
    requires rest == "" || rest[0] != q
    ensures ReadQuoted(Doubled(s, q) + [q] + rest, q) == Some(Parsed(s, rest))
  {
    var text := Doubled(s, q) + [q] + rest;
    if s == "" {
      assert text == [q] + rest && text[1..] == rest;
    } else {
      var tail := Doubled(s[1..], q) + [q] + rest;
      QuotedRoundTrip(s[1..], q, rest);
      assert s == [s[0]] + s[1..];
      if s[0] == q {
        assert text == [q, q] + tail && text[2..] == tail;
      } else {
        assert text == [s[0]] + tail && text[1..] == tail;
      }
    }
  }

  /** Escaping is injective: the decoder recovers the string. */
  lemma QuotedInjective(s: string, t: string, q: char)
    requires Quoted(s, q) == Quoted(t, q)
    ensures s == t
  {
    QuotedRoundTrip(s, q, "");
    QuotedRoundTrip(t, q, "");
    assert Doubled(s, q) + [q] + "" == Quoted(s, q)[1..];
    assert Doubled(t, q) + [q] + "" == Quoted(t, q)[1..];
  }

  /** Splitting at the dots loses nothing, so a dotted identifier is its parts. */
  lemma {:induction false} SplitRoundTrip(s: string)
    ensures Join(SplitDots(s), ".") == s
    ensures forall k :: 0 <= k < |SplitDots(s)| ==> '.' !in SplitDots(s)[k]
  {
    if s != "" {
      var tail := SplitDots(s[1..]);
      SplitRoundTrip(s[1..]);
      assert s == [s[0]] + s[1..];
      if s[0] == '.' {
        assert ([""] + tail)[1..] == tail;
      } else {
        var parts := [[s[0]] + tail[0]] + tail[1..];
        assert parts[1..] == tail[1..];
        assert parts == SplitDots(s);
        if |tail| > 1 {
          assert Join(parts, ".") == [s[0]] + Join(tail, ".");
        }
      }
    }
  }

  lemma SimplePart(part: string, rest: string, s: string)
    requires IsSimpleIdentifier(part) && Stops(rest, IsIdChar) && s == part + rest
    ensures ReadPart(s) == Some(Parsed(part, rest))
  {
    SpanStops(part, rest, IsIdChar);
    assert s[..|part|] == part && s[|part|..] == rest;
  }

  lemma QuotedPart(part: string, rest: string, s: string)
    requires Stops(rest, c => c == '"') && s == Quoted(part, '"') + rest
    ensures ReadPart(s) == Some(Parsed(part, rest))
  {
    QuotedRoundTrip(part, '"', rest);
    assert s[1..] == Doubled(part, '"') + ['"'] + rest;
  }

  lemma PartRoundTrip(part: string, rest: string)
    requires part != ""
    requires Stops(rest, IsIdChar) && Stops(rest, c => c == '"')
    ensures ReadPart(EscapedPart(part) + rest) == Some(Parsed(part, rest))
  {
    hide ReadPart, Quoted, IsSimpleIdentifier;
    if IsSimpleIdentifier(part) {
      SimplePart(part, rest, EscapedPart(part) + rest);
    } else {
      QuotedPart(part, rest, EscapedPart(part) + rest);
    }
  }

  /** What may follow a column without being read as part of it. */
  predicate AfterColumn(rest: string) {
    Stops(rest, c => IsIdChar(c) || c == '"' || c == '.')
  }

  lemma {:induction false} ColumnRoundTrip(column: Column, rest: string)
    requires ValidColumn(column) && AfterColumn(rest)
    ensures ReadColumn(ColumnText(column) + rest) == Some(Parsed(column, rest))
  {
    var text := ColumnText(column) + rest;
    var parts := EscapedParts(column);
    assert column[0] in column;
    if |column| == 1 {
      PartRoundTrip(column[0], rest);
      assert column == [column[0]];
    } else {
      var tail := "." + (ColumnText(column[1..]) + rest);
      assert parts[1..] == EscapedParts(column[1..]);
      assert text == EscapedPart(column[0]) + tail;
      PartRoundTrip(column[0], tail);
      assert tail[1..] == ColumnText(column[1..]) + rest;
      assert forall x :: x in column[1..] ==> x in column;
      ColumnRoundTrip(column[1..], rest);
      assert column == [column[0]] + column[1..];
    }
  }

  /** What may follow a literal without being read as part of it. */
  predicate AfterLiteral(rest: string) {
    Stops(rest, c => IsIdChar(c) || c == '\'')
  }

  lemma NumberRoundTrip(n: nat, rest: string)
    requires Stops(rest, IsDigit)
    ensures ReadNumber(DigitText(n) + rest) == Some(Parsed(n, rest))
  {
    SpanStops(DigitText(n), rest, IsDigit);
    DigitsRoundTrip(n);
    assert (DigitText(n) + rest)[..|DigitText(n)|] == DigitText(n);
    assert (DigitText(n) + rest)[|DigitText(n)|..] == rest;
  }

  lemma WordRoundTrip(word: string, rest: string)
    requires forall i :: 0 <= i < |word| ==> IsIdChar(word[i])
    requires Stops(rest, IsIdChar)
    ensures Span(word + rest, IsIdChar) == |word|
    ensures (word + rest)[..|word|] == word && (word + rest)[|word|..] == rest
  {
    SpanStops(word, rest, IsIdChar);
  }

  lemma WordLiteral(v: Value, rest: string)
    requires v.Null? || v.Bool?
    requires AfterLiteral(rest)
    ensures ReadLiteral(LiteralText(v) + rest) == Some(Parsed(v, rest))
  {
    WordRoundTrip(LiteralText(v), rest);
    assert (LiteralText(v) + rest)[0] in ['N', 'T', 'F'];
  }

  lemma NegativeLiteral(n: nat, rest: string)
    requires AfterLiteral(rest)
    ensures ReadLiteral("-" + DigitText(n) + rest) == Some(Parsed(Int(0 - n), rest))
  {
    NumberRoundTrip(n, rest);
    assert ("-" + DigitText(n) + rest)[1..] == DigitText(n) + rest;
  }

  lemma NaturalLiteral(n: nat, rest: string)
    requires AfterLiteral(rest)
    ensures ReadLiteral(DigitText(n) + rest) == Some(Parsed(Int(n), rest))
  {
    NumberRoundTrip(n, rest);
    assert IsDigit((DigitText(n) + rest)[0]);
  }

  lemma StringLiteral(s: string, rest: string)
    requires AfterLiteral(rest)
    ensures ReadLiteral(Quoted(s, '\'') + rest) == Some(Parsed(Str(s), rest))
  {
    QuotedRoundTrip(s, '\'', rest);
    assert (Quoted(s, '\'') + rest)[1..] == Doubled(s, '\'') + ['\''] + rest;
  }

  lemma LiteralRoundTrip(v: Value, rest: string)
    requires AfterLiteral(rest)
    ensures ReadLiteral(LiteralText(v) + rest) == Some(Parsed(v, rest))
  {
    match v
    case Null => WordLiteral(v, rest);
    case Bool(_) => WordLiteral(v, rest);
    case Int(i) => if i < 0 { NegativeLiteral(-i, rest); } else { NaturalLiteral(i, rest); }
    case Str(s) => StringLiteral(s, rest);
  }

  /** IN lists of any length decode uniquely. */
  lemma {:induction false} LiteralsRoundTrip(values: seq<Value>, rest: string)
    requires values != []
    ensures ReadLiterals(Join(LiteralTexts(values), ", ") + ")" + rest) == Some(Parsed(values, rest))
  {
    hide ReadLiteral, LiteralText;
    var texts := LiteralTexts(values);
    var text := Join(texts, ", ") + ")" + rest;
    if |values| == 1 {
      assert text == LiteralText(values[0]) + (")" + rest);
      LiteralRoundTrip(values[0], ")" + rest);
      SkipHit(")", rest);
      SkipMiss(")" + rest, ", ", 0);
      assert values == [values[0]];
    } else {
      var tail := Join(LiteralTexts(values[1..]), ", ") + ")" + rest;
      assert texts[1..] == LiteralTexts(values[1..]);
      assert text == LiteralText(values[0]) + (", " + tail);
      LiteralRoundTrip(values[0], ", " + tail);
      SkipHit(", ", tail);
      LiteralsRoundTrip(values[1..], rest);
      assert values == [values[0]] + values[1..];
    }
  }

  /** The other half: no text that opens an IN list with `)` is a predicate. */
  lemma EmptyListUnreadable(rest: string)
    ensures ReadLiterals(")" + rest) == None
  {
    var text := ")" + rest;
    assert Span(text, IsIdChar) == 0;
    assert text[..0] == "";
  }

  lemma OpRoundTrip(op: CompareOp, rest: string)
    requires Stops(rest, IsOpChar)
    ensures ReadOp(OpText(op) + rest) == Some(Parsed(op, rest))
  {
    SpanStops(OpText(op), rest, IsOpChar);
    assert (OpText(op) + rest)[..|OpText(op)|] == OpText(op);
    assert (OpText(op) + rest)[|OpText(op)|..] == rest;
  }

  lemma ComparisonRoundTrip(p: Pred, rest: string)
    requires p.Comparison? && AfterLiteral(rest)
    ensures ReadTail(p.col, TailText(p) + rest) == Some(Parsed(p, rest))
  {
    hide ReadLiteral, ReadOp, LiteralText, AfterLiteral, ReadRange, ReadList, ReadNullTest;
    var (op, tail) := (OpText(p.op), LiteralText(p.value) + rest);
    var text := TailText(p) + rest;
    assert text == op + (" " + tail);
    OpRoundTrip(p.op, " " + tail);
    SkipHit(" ", tail);
    LiteralRoundTrip(p.value, rest);
    assert text[0] == op[0];
    assert text[..0] == "";
  }

  lemma ListRoundTrip(p: Pred, rest: string)
    requires p.InList? && p.values != []
    ensures ReadTail(p.col, TailText(p) + rest) == Some(Parsed(p, rest))
  {
    hide ReadLiterals, LiteralTexts, Join;
    var body := Join(LiteralTexts(p.values), ", ") + ")" + rest;
    var (word, glue) := if p.negated then ("NOT", " IN (") else ("IN", " (");
    assert TailText(p) + rest == word + (glue + body);
    WordRoundTrip(word, glue + body);
    SkipHit(glue, body);
    LiteralsRoundTrip(p.values, rest);
  }

  lemma RangeRoundTrip(p: Pred, rest: string)
    requires p.Range? && AfterLiteral(rest)
    ensures ReadTail(p.col, TailText(p) + rest) == Some(Parsed(p, rest))
  {
    hide ReadLiteral, LiteralText;
    var second := LiteralText(p.high) + rest;
    var first := LiteralText(p.low) + (" AND " + second);
    assert TailText(p) + rest == "BETWEEN" + (" " + first);
    WordRoundTrip("BETWEEN", " " + first);
    SkipHit(" ", first);
    LiteralRoundTrip(p.low, " AND " + second);
    SkipHit(" AND ", second);
    LiteralRoundTrip(p.high, rest);
  }

  lemma NullTestRoundTrip(p: Pred, rest: string)
    requires p.NullTest?
    ensures ReadTail(p.col, TailText(p) + rest) == Some(Parsed(p, rest))
  {
    var glue := if p.negated then " NOT NULL" else " NULL";
    assert TailText(p) + rest == "IS" + (glue + rest);
    WordRoundTrip("IS", glue + rest);
    SkipHit(glue, rest);
    if !p.negated { SkipMiss(glue + rest, " NOT NULL", 2); }
  }

  lemma TailRoundTrip(p: Pred, rest: string)
    requires WellFormed(p) && AfterLiteral(rest)
    ensures ReadTail(p.col, TailText(p) + rest) == Some(Parsed(p, rest))
  {
    match p
    case Comparison(_, _, _) => ComparisonRoundTrip(p, rest);
    case InList(_, _, _) => ListRoundTrip(p, rest);
    case Range(_, _, _) => RangeRoundTrip(p, rest);
    case NullTest(_, _) => NullTestRoundTrip(p, rest);
  }

  lemma ReadPredParts(s: string, col: Column, tail: string, p: Pred, rest: string)
    requires ReadColumn(s) == Some(Parsed(col, " " + tail)) && ReadTail(col, tail) == Some(Parsed(p, rest))
    ensures ReadPred(s) == Some(Parsed(p, rest))
  {
    hide ReadColumn, ReadTail;
    SkipHit(" ", tail);
  }

  lemma PredTextParts(p: Pred, rest: string)
    ensures PredText(p) + rest == ColumnText(p.col) + (" " + (TailText(p) + rest))
  {
    hide ColumnText, TailText;
  }

  lemma SpaceAfterColumn(tail: string)
    ensures AfterColumn(" " + tail)
  {
  }

  lemma PredRoundTrip(p: Pred, rest: string)
    requires WellFormed(p) && AfterLiteral(rest)
    ensures ReadPred(PredText(p) + rest) == Some(Parsed(p, rest))
  {
    assert ValidColumn(p.col);
    hide *;
    var tail := TailText(p) + rest;
    PredTextParts(p, rest);
    SpaceAfterColumn(tail);
    ColumnRoundTrip(p.col, " " + tail);
    TailRoundTrip(p, rest);
    ReadPredParts(PredText(p) + rest, p.col, tail, p, rest);
  }

  lemma WhereTextSplit(ps: seq<Pred>)
    requires ps != []
    ensures |ps| == 1 ==> WhereText(ps) == PredText(ps[0]) + ""
    ensures |ps| > 1 ==> WhereText(ps) == PredText(ps[0]) + (" AND " + WhereText(ps[1..]))
  {
    assert PredTexts(ps)[1..] == PredTexts(ps[1..]);
  }

  lemma WhereLast(s: string, p: Pred)
    requires ReadPred(s) == Some(Parsed(p, ""))
    ensures ReadWhere(s) == Some([p])
  {
  }

  lemma WhereStep(s: string, p: Pred, tail: string, ps: seq<Pred>)
    requires ReadPred(s) == Some(Parsed(p, " AND " + tail)) && ReadWhere(tail) == Some(ps)
    ensures ReadWhere(s) == Some([p] + ps)
  {
    SkipHit(" AND ", tail);
  }

  /** Reading a predicate off a conjunction leaves the rest of the conjunction. */
  lemma FirstPred(p: Pred, tail: string)
    requires WellFormed(p)
    ensures ReadPred(PredText(p) + "") == Some(Parsed(p, ""))
    ensures ReadPred(PredText(p) + (" AND " + tail)) == Some(Parsed(p, " AND " + tail))
  {
    PredRoundTrip(p, "");
    PredRoundTrip(p, " AND " + tail);
  }

  /** The WHERE text reads back as exactly the predicates it was made from, in order: neither a
      quote, comma, parenthesis or ` AND ` inside a string nor BETWEEN's own AND can break it. */
  lemma {:induction false} WhereRoundTrip(ps: seq<Pred>)
    requires ps != [] && forall p :: p in ps ==> WellFormed(p)
    ensures ReadWhere(WhereText(ps)) == Some(ps)
  {
    hide PredText, ReadPred, WellFormed, ReadWhere;
    WhereTextSplit(ps);
    assert ps[0] in ps;
    if |ps| == 1 {
      FirstPred(ps[0], "");
      WhereLast(WhereText(ps), ps[0]);
      assert ps == [ps[0]];
    } else {
      FirstPred(ps[0], WhereText(ps[1..]));
      assert forall p :: p in ps[1..] ==> p in ps;
      WhereRoundTrip(ps[1..]);
      WhereStep(WhereText(ps), ps[0], WhereText(ps[1..]), ps[1..]);
      assert ps == [ps[0]] + ps[1..];
    }
  }
}
