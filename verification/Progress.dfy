/** The percentage of a progress report, computed in floating point and rounded half to even. */
module Progress {

  /** All that is used of the rounding of a floating-point operation: it keeps order, and it is exact
      on 0, 1 and 100. Rounding to nearest of IEEE 754 (section 4.3.1) does both. */
  ghost predicate Rounding(fl: real -> real) {
    && (forall x: real, y: real :: x <= y ==> fl(x) <= fl(y))
    && fl(0.0) == 0.0 && fl(1.0) == 1.0 && fl(100.0) == 100.0
  }

  /** The integer nearest to `x`, a tie going to the even one. */
  function RoundHalfEven(x: real): (r: int)
    ensures r as real - 0.5 <= x <= r as real + 0.5
    ensures x == r as real - 0.5 || x == r as real + 0.5 ==> r % 2 == 0
  {
    var low := x.Floor;
    var rest := x - low as real;
    if rest < 0.5 || (rest == 0.5 && low % 2 == 0) then low else low + 1
  }

  lemma RoundMonotone(x: real, y: real)
    requires x <= y
    ensures RoundHalfEven(x) <= RoundHalfEven(y)
  {
    hide RoundHalfEven;
  }

  /** `round((completed / total) * 100)`, kept within 0..100; both operations round. */
  function Percent(fl: real -> real, completed: int, total: int): (p: int)
    ensures 0 <= p <= 100
  {
    var raw := if total <= 0 then 0 else RoundHalfEven(fl(fl(completed as real / total as real) * 100.0));
    if raw < 0 then 0 else if raw > 100 then 100 else raw
  }

  lemma QuotientMonotone(m: real, n: real, d: real)
    requires m <= n && d > 0.0
    ensures m / d <= n / d
  {
    assert n / d - m / d == (n - m) / d;
  }

  /** More steps never give a smaller percentage, however the operations round. */
  lemma PercentMonotone(fl: real -> real, m: int, n: int, total: int)
    requires Rounding(fl) && m <= n
    ensures Percent(fl, m, total) <= Percent(fl, n, total)
  {
    if total > 0 {
      var (x, y) := (m as real / total as real, n as real / total as real);
      QuotientMonotone(m as real, n as real, total as real);
      assert fl(x) <= fl(y);
      assert fl(fl(x) * 100.0) <= fl(fl(y) * 100.0);
      RoundMonotone(fl(fl(x) * 100.0), fl(fl(y) * 100.0));
    }
  }

  lemma PercentEnds(fl: real -> real, total: int)
    requires Rounding(fl) && total > 0
    ensures Percent(fl, 0, total) == 0 && Percent(fl, total, total) == 100
  {
    QuotientOf(0.0, total as real);
    QuotientOf(1.0, total as real);
    hide Rounding;
  }

  /** Outside the steps of a run the percentage stays at its ends. */
  lemma PercentOutside(fl: real -> real, completed: int, total: int)
    requires Rounding(fl)
    ensures total <= 0 || completed <= 0 ==> Percent(fl, completed, total) == 0
    ensures total > 0 && completed >= total ==> Percent(fl, completed, total) == 100
  {
    if total > 0 {
      PercentEnds(fl, total);
      if completed <= 0 { PercentMonotone(fl, completed, 0, total); }
      if completed >= total { PercentMonotone(fl, total, completed, total); }
    }
    hide RoundHalfEven;
  }

  /** Each operation is off by at most `error` on the values it meets. */
  ghost predicate Within(fl: real -> real, error: real) {
    forall x: real :: 0.0 <= x <= 100.0 ==> x - error <= fl(x) <= x + error
  }

  /** The percentage is the share of completed steps to within half a point and the rounding errors. */
  lemma PercentNear(fl: real -> real, completed: int, total: int, error: real)
    requires Rounding(fl) && Within(fl, error) && 0 <= completed <= total && total > 0
    ensures var share := completed as real * 100.0 / total as real;
            share - 0.5 - 101.0 * error <= Percent(fl, completed, total) as real <= share + 0.5 + 101.0 * error
  {
    var q := completed as real / total as real;
    Share(completed as real, total as real);
    var a := fl(q);
    assert fl(0.0) <= a <= fl(1.0);
    assert q - error <= a <= q + error;
    var b := fl(a * 100.0);
    assert fl(0.0) <= b <= fl(100.0);
    assert a * 100.0 - error <= b <= a * 100.0 + error;
    hide Within, Rounding;
    NearRounding(b, completed, total, fl);
  }

  lemma Share(c: real, t: real)
    requires 0.0 <= c <= t && t > 0.0
    ensures 0.0 <= c / t <= 1.0 && c * 100.0 / t == c / t * 100.0
  {
    QuotientMonotone(0.0, c, t);
    QuotientMonotone(c, t, t);
    var q := c / t;
    assert q * t == c;
    assert c * 100.0 == (q * 100.0) * t;
    QuotientOf(q * 100.0, t);
    QuotientOf(0.0, t);
    QuotientOf(1.0, t);
  }

  lemma QuotientOf(x: real, t: real)
    requires t > 0.0
    ensures x * t / t == x
  {
  }

  lemma NearRounding(b: real, completed: int, total: int, fl: real -> real)
    requires total > 0 && 0.0 <= b <= 100.0 && b == fl(fl(completed as real / total as real) * 100.0)
    ensures b - 0.5 <= Percent(fl, completed, total) as real <= b + 0.5
  {
    var r := RoundHalfEven(b);
    hide RoundHalfEven;
    assert 0 <= r <= 100;
  }

  /** Reports that never go back. */
  predicate NeverDecreases(ps: seq<int>) { forall i, j :: 0 <= i <= j < |ps| ==> ps[i] <= ps[j] }

  /** One report per step never goes back, wherever the run stops. */
  lemma StepsClimb(fl: real -> real, percents: seq<int>, total: int)
    requires Rounding(fl) && forall i :: 0 <= i < |percents| ==> percents[i] == Percent(fl, i, total)
    ensures NeverDecreases(percents) && forall p :: p in percents ==> 0 <= p <= 100
  {
    hide Percent, Rounding;
    forall i, j | 0 <= i <= j < |percents| ensures percents[i] <= percents[j] { PercentMonotone(fl, i, j, total); }
  }

  /** The reports of a completed run: one per step, and the last one once more. */
  lemma ProgressClimbs(fl: real -> real, percents: seq<int>, total: int)
    requires Rounding(fl) && total > 0 && |percents| == total + 1
    requires forall i :: 0 <= i <= total ==> percents[i] == Percent(fl, i, total)
    ensures var ps := percents + [Percent(fl, total, total)];
            NeverDecreases(ps) && ps[0] == 0 && ps[|ps| - 1] == 100 && forall p :: p in ps ==> 0 <= p <= 100
  {
    var ps := percents + [Percent(fl, total, total)];
    PercentEnds(fl, total);
    assert forall i :: 0 <= i < |ps| ==> ps[i] == Percent(fl, if i <= total then i else total, total);
    hide Percent, Rounding;
    forall i, j | 0 <= i <= j < |ps| ensures ps[i] <= ps[j] {
      PercentMonotone(fl, if i <= total then i else total, if j <= total then j else total, total);
    }
  }
}
