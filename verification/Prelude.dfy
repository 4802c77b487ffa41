/** Small vocabulary shared by every component: optional and fallible values,
    Python's rounding, and the "first row that matches" query. */
module Prelude {

  datatype Option<+T> = None | Some(value: T)

  datatype Result<+T, +E> = Ok(value: T) | Err(error: E)

  function Min(a: int, b: int): int { if a <= b then a else b }

  function Max(a: int, b: int): int { if a >= b then a else b }

  /** Python's round() on an exact rational: nearest integer, ties to even. */
  function RoundHalfEven(x: real): (r: int)
    ensures -0.5 <= r as real - x <= 0.5
    ensures r as real - x == 0.5 || r as real - x == -0.5 ==> r % 2 == 0
  {
    var f := x.Floor;
    var d := x - f as real;
    if d < 0.5 || (d == 0.5 && f % 2 == 0) then f else f + 1
  }

  /** n is num / den rounded to the nearest integer, ties to even. */
  predicate Nearest(n: int, num: int, den: int) {
    && (2 * n - 1) * den <= 2 * num <= (2 * n + 1) * den
    && ((2 * n - 1) * den == 2 * num || 2 * num == (2 * n + 1) * den ==> n % 2 == 0)
  }

  /** A rounded percentage, without division. */
  lemma PercentIsNearest(x: nat, total: nat)
    requires total > 0
    ensures Nearest(RoundHalfEven(x as real / total as real * 100.0), 100 * x, total)
  {
    var q := x as real / total as real;
    var n := RoundHalfEven(q * 100.0);
    assert q * total as real == x as real;
    Halves(n, q * 100.0, total);
    assert q * 100.0 * total as real == (100 * x) as real;
  }

  /** Comparing a real with the halves next to an integer survives multiplication. */
  lemma Halves(n: int, x: real, den: nat)
    requires den > 0 && -0.5 <= n as real - x <= 0.5
    ensures ((2 * n - 1) * den) as real <= 2.0 * (x * den as real) <= ((2 * n + 1) * den) as real
    ensures ((2 * n - 1) * den) as real == 2.0 * (x * den as real) ==> n as real - x == 0.5
    ensures ((2 * n + 1) * den) as real == 2.0 * (x * den as real) ==> n as real - x == -0.5
  {
    var d, low, high := den as real, x - n as real + 0.5, n as real + 0.5 - x;
    assert low * d >= 0.0 && high * d >= 0.0;
    assert low > 0.0 ==> low * d > 0.0;
    assert high > 0.0 ==> high * d > 0.0;
    LinearIn(2 * n - 1, den);
    LinearIn(2 * n + 1, den);
    assert 2.0 * (low * d) == 2.0 * (x * d) - (2 * n - 1) as real * d;
    assert 2.0 * (high * d) == (2 * n + 1) as real * d - 2.0 * (x * d);
  }

  lemma LinearIn(a: int, b: int)
    ensures (a * b) as real == a as real * b as real
  {
  }

  /** The least integer not below x. */
  function Ceil(x: real): (r: int)
    ensures r as real - 1.0 < x <= r as real
  {
    -((-x).Floor)
  }

  /** SELECT ... scalar_one_or_none(): the index of the first row satisfying p. */
  function First<T>(rows: seq<T>, p: T -> bool): (r: Option<nat>)
    ensures r.Some? ==> r.value < |rows| && p(rows[r.value])
    ensures r.Some? ==> forall j :: 0 <= j < r.value ==> !p(rows[j])
    ensures r.None? ==> forall j :: 0 <= j < |rows| ==> !p(rows[j])
  {
    if rows == [] then None
    else if p(rows[0]) then Some(0)
    else
      match First(rows[1..], p)
      case None => None
      case Some(i) => Some(i + 1)
  }

  lemma Regroup<T>(a: seq<T>, b: seq<T>, c: seq<T>)
    ensures a + (b + c) == (a + b) + c
  {
  }

  lemma {:induction false} SubsetSize<T>(a: set<T>, b: set<T>)
    requires a <= b
    ensures |a| <= |b|
    decreases a
  {
    if a != {} {
      var x :| x in a;
      SubsetSize(a - {x}, b - {x});
    }
  }

  lemma {:induction false} SubsetOfSameSize<T>(a: set<T>, b: set<T>)
    requires a <= b && |a| == |b|
    ensures a == b
    decreases a
  {
    if a != {} {
      var x :| x in a;
      SubsetOfSameSize(a - {x}, b - {x});
    }
  }
}
