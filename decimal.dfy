/**
 * The decimal rendering of a byte count, as `format!("{s}")` prints the
 * `usize` that goes into the Content-Length header.
 */
module Decimal {
  import opened Bytes

  const ZERO: byte := 0x30

  predicate IsDigit(b: byte) {
    ZERO <= b <= ZERO + 9
  }

  predicate AllDigits(d: seq<byte>) {
    forall i | 0 <= i < |d| :: IsDigit(d[i])
  }

  /** What Rust prints for an unsigned integer: at least one digit, no leading zero unless the number is 0. */
  predicate IsCanonical(d: seq<byte>) {
    |d| >= 1 && AllDigits(d) && (d[0] == ZERO ==> |d| == 1)
  }

  /** The number a digit string denotes, most significant digit first. */
  function Value(d: seq<byte>): nat
    requires AllDigits(d)
  {
    if d == [] then 0 else Value(d[..|d| - 1]) * 10 + (d[|d| - 1] - ZERO)
  }

  /** The decimal digits of `n`. */
  function Render(n: nat): (d: seq<byte>)
    ensures IsCanonical(d)
    ensures Value(d) == n
  {
    if n < 10 then [ZERO + n]
    else
      var d := Render(n / 10) + [ZERO + n % 10];
      assert d[..|d| - 1] == Render(n / 10);
      d
  }

  /** A digit string without a leading zero denotes a positive number. */
  lemma {:induction false} ValuePositive(d: seq<byte>)
    requires |d| >= 1 && AllDigits(d) && d[0] != ZERO
    ensures Value(d) >= 1
  {
    if |d| > 1 {
      var p := d[..|d| - 1];
      ValuePositive(p);
    }
  }

  /** Every canonical digit string is the rendering of its value, so `Render` is onto the canonical strings and `Value` inverts it. */
  lemma {:induction false} CanonicalIsRendered(d: seq<byte>)
    requires IsCanonical(d)
    ensures Render(Value(d)) == d
  {
    if |d| > 1 {
      var p := d[..|d| - 1];
      assert p[0] == d[0];
      ValuePositive(p);
      if |p| > 1 {
        assert p[0] != ZERO;
      }
      CanonicalIsRendered(p);
      var k := d[|d| - 1] - ZERO;
      assert Value(d) == Value(p) * 10 + k;
      assert Value(d) / 10 == Value(p) && Value(d) % 10 == k;
      assert d == p + [d[|d| - 1]];
    }
  }
}
