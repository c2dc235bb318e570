/** Small shared vocabulary: an optional value, integer absolute value and
    Python's float-to-int truncation, stated over mathematical reals. */
module Common {

  /** A value that may be missing: a face the mesh did not find, a zone
      not yet cached, a timer not yet started, or a callbacks argument
      passed as NULL. */
  datatype Option<+T> = None | Some(value: T)

  /** Absolute value of an integer. */
  function Abs(x: int): (r: nat)
    ensures r == x || r == -x
  {
    if x < 0 then -x else x
  }

  /** Python's `int(v)` for a finite float: truncation toward zero. The
      contract pins the result down uniquely: it is the integer nearest to
      `v` on the side of zero, less than one away. */
  function Trunc(v: real): (r: int)
    ensures 0.0 <= v ==> 0 <= r && r as real <= v < r as real + 1.0
    ensures v < 0.0 ==> r <= 0 && r as real - 1.0 < v <= r as real
  {
    if 0.0 <= v then v.Floor else -((-v).Floor)
  }

  /** Truncation is monotone. */
  lemma TruncMonotone(a: real, b: real)
    requires a <= b
    ensures Trunc(a) <= Trunc(b)
  {
  }

  /** Truncating a value that already is an integer gives it back. */
  lemma TruncOfInt(n: int)
    ensures Trunc(n as real) == n
  {
  }
}
