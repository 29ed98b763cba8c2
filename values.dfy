/**
 * The dynamically typed values that the service keeps on its D-Bus paths,
 * the few Python operators the update cycle applies to them, and the
 * two-decimal rounding it applies to every reading before publishing it.
 */
module Values {

  datatype Option<+T> = None | Some(value: T)

  /** A value stored on a path: Python's None, an int, a float or a str. */
  datatype Value = Null | Int(n: int) | Real(x: real) | Str(s: string)

  predicate IsNumber(v: Value) {
    v.Int? || v.Real?
  }

  /**
   * Python's `v >= k` for an int literal `k`: a number compares by value,
   * None or a string raises TypeError, modelled as None.
   */
  function AtLeast(v: Value, k: int): (r: Option<bool>)
    ensures r.Some? <==> IsNumber(v)
    ensures v.Int? ==> r == Some(v.n >= k)
    ensures v.Real? ==> r == Some(v.x >= k as real)
  {
    match v
    case Int(n) => Some(n >= k)
    case Real(x) => Some(x >= k as real)
    case _ => None
  }

  /**
   * Python's `v == k` for an int literal `k`: numbers compare by value
   * (so `7.0 == 7`), None and strings are never equal to a number.
   */
  function EqualsInt(v: Value, k: int): (r: bool)
    ensures r ==> IsNumber(v)
    ensures r <==> v == Int(k) || v == Real(k as real)
  {
    match v
    case Int(n) => n == k
    case Real(x) => x == k as real
    case _ => false
  }

  /**
   * The whole number nearest to `x * 100`, ties to the even neighbour
   * (Python 3 rounding, on exact reals).
   */
  function Hundredths(x: real): (n: int)
    ensures -0.5 <= n as real - x * 100.0 <= 0.5
  {
    var scaled := x * 100.0;
    var down := scaled.Floor;
    var frac := scaled - down as real;
    if frac < 0.5 then down
    else if frac > 0.5 then down + 1
    else if down % 2 == 0 then down
    else down + 1
  }

  /** `round(x, 2)`: `x` to the nearest hundredth. */
  function Round2(x: real): (r: real)
    ensures x - 0.005 <= r <= x + 0.005
    ensures r * 100.0 == Hundredths(x) as real
  {
    Hundredths(x) as real / 100.0
  }

  /** A value that is already a whole number of hundredths is left alone by `round(x, 2)`. */
  lemma Round2Idempotent(x: real)
    ensures Round2(Round2(x)) == Round2(x)
  {
    var n := Hundredths(x);
    var y := n as real / 100.0;
    assert y * 100.0 == n as real;
    assert (y * 100.0).Floor == n;
    assert Hundredths(y) == n;
  }
}
