/** SQL values, three-valued truth, and the predicates a WHERE clause of this system can hold,
    with the meaning the two engines share. */
module Sql {

  /** The parameter values whose SQL text is unambiguous. */
  datatype Value = Null | Bool(b: bool) | Int(i: int) | Str(s: string)

  datatype Truth = Yes | No | Unknown {
    function And(other: Truth): (t: Truth) {
      if this == No || other == No then No else if this == Yes && other == Yes then Yes else Unknown
    }

    function Or(other: Truth): (t: Truth) {
      if this == Yes || other == Yes then Yes else if this == No && other == No then No else Unknown
    }

    function Not(): (t: Truth) {
      match this case Yes => No case No => Yes case Unknown => Unknown
    }
  }

  function Lift(b: bool): (t: Truth) { if b then Yes else No }

  /** How an engine orders the non-null values of a column. Every result below holds for any choice. */
  type Order = (Value, Value) -> bool

  /** The parts of a dotted identifier. */
  type Column = seq<string>

  /** A row; a column that the row does not carry reads as null. */
  type Row = map<Column, Value>

  function Read(row: Row, column: Column): (v: Value) {
    if column in row then row[column] else Null
  }

  datatype CompareOp = Eq | Ne | Gt | Ge | Lt | Le

  /** Comparison of two values: unknown as soon as one side is null. */
  function Compare(le: Order, op: CompareOp, a: Value, b: Value): (t: Truth) {
    if a == Null || b == Null then Unknown else
    match op
    case Eq => Lift(a == b)
    case Ne => Lift(a != b)
    case Gt => Lift(!le(a, b))
    case Ge => Lift(le(b, a))
    case Lt => Lift(!le(b, a))
    case Le => Lift(le(a, b))
  }

  /** IN as the disjunction of equalities (section 8.4 of ISO/IEC 9075-2). */
  function Member(le: Order, a: Value, values: seq<Value>): (t: Truth) {
    if values == [] then No else Compare(le, Eq, a, values[0]).Or(Member(le, a, values[1..]))
  }

  /** BETWEEN as the conjunction of two comparisons (section 8.3 of ISO/IEC 9075-2). */
  function Within(le: Order, a: Value, low: Value, high: Value): (t: Truth) {
    Compare(le, Ge, a, low).And(Compare(le, Le, a, high))
  }

  /** Kleene's connectives: the two-valued ones where both sides are known, and as much as one known
      side decides otherwise. */
  lemma TruthLaws(a: Truth, b: Truth)
    ensures a.And(b) == Yes <==> a == Yes && b == Yes
    ensures a.And(b) == No <==> a == No || b == No
    ensures a.Or(b) == Yes <==> a == Yes || b == Yes
    ensures a.Or(b) == No <==> a == No && b == No
    ensures (a.Not() == Yes <==> a == No) && (a.Not() == No <==> a == Yes)
  {
  }

  /** A comparison is unknown iff a side is null; the six operators are those of the order and of
      equality. */
  lemma CompareMeaning(le: Order, op: CompareOp, a: Value, b: Value)
    ensures Compare(le, op, a, b) == Unknown <==> a == Null || b == Null
    ensures a != Null && b != Null ==>
            && (Compare(le, Eq, a, b) == Yes <==> a == b) && (Compare(le, Ne, a, b) == Yes <==> a != b)
            && (Compare(le, Le, a, b) == Yes <==> le(a, b)) && (Compare(le, Ge, a, b) == Yes <==> le(b, a))
            && (Compare(le, Lt, a, b) == Yes <==> !le(b, a)) && (Compare(le, Gt, a, b) == Yes <==> !le(a, b))
  {
  }

  /** BETWEEN is true iff the value is known to lie between the bounds, and false as soon as it is known
      to lie outside one of them. */
  lemma WithinMeaning(le: Order, a: Value, low: Value, high: Value)
    ensures Within(le, a, low, high) == Yes <==>
            a != Null && low != Null && high != Null && le(low, a) && le(a, high)
    ensures Within(le, a, low, high) == No <==>
            a != Null && ((low != Null && !le(low, a)) || (high != Null && !le(a, high)))
  {
  }

  /** Two-valued reading of membership: true iff listed, false iff provably not listed. */
  lemma {:induction false} MemberMeaning(le: Order, a: Value, values: seq<Value>)
    ensures Member(le, a, values) == Yes <==> a != Null && a in values
    ensures Member(le, a, values) == No <==> values == [] || (a != Null && Null !in values && a !in values)
  {
    if values != [] {
      MemberMeaning(le, a, values[1..]);
      assert values == [values[0]] + values[1..];
    }
  }

  function Filter<T>(rows: seq<T>, keep: T -> bool): (r: seq<T>)
    ensures |r| <= |rows|
  {
    if rows == [] then []
    else if keep(rows[0]) then [rows[0]] + Filter(rows[1..], keep)
    else Filter(rows[1..], keep)
  }

  /** Only the answers of the test on the rows themselves matter. */
  lemma {:induction false} FilterSame<T>(rows: seq<T>, p: T -> bool, q: T -> bool)
    requires forall x :: x in rows ==> p(x) == q(x)
    ensures Filter(rows, p) == Filter(rows, q)
  {
    if rows != [] {
      assert rows[0] in rows;
      assert forall x :: x in rows[1..] ==> x in rows;
      FilterSame(rows[1..], p, q);
    }
  }

  lemma {:induction false} FilterNone<T>(rows: seq<T>, p: T -> bool)
    ensures Filter(rows, p) == [] <==> forall x :: x in rows ==> !p(x)
  {
    if rows != [] {
      FilterNone(rows[1..], p);
      assert rows == [rows[0]] + rows[1..];
    }
  }

  lemma {:induction false} FilterTwice<T>(rows: seq<T>, p: T -> bool, q: T -> bool)
    ensures Filter(Filter(rows, p), q) == Filter(rows, x => p(x) && q(x))
  {
    if rows != [] {
      FilterTwice(rows[1..], p, q);
      if p(rows[0]) {
        var f := Filter(rows[1..], p);
        assert ([rows[0]] + f)[1..] == f;
      }
    }
  }
}
