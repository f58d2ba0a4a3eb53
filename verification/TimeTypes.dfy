/**
 The integers of the time foundation: C widths and C division, and the instant they make up.
 */
module TimeTypes {

  const INT64_MIN: int := -0x8000_0000_0000_0000
  const INT64_MAX: int := 0x7fff_ffff_ffff_ffff

  type Int64 = x: int | INT64_MIN <= x <= INT64_MAX

  type Unsigned = x: int | 0 <= x < 0x1_0000_0000

  const NANOSECONDS := 1_000_000_000

  /** Seconds since the Unix epoch, and nanoseconds after that second. */
  datatype Utc = Utc(seconds: Int64, nanosecond: Unsigned)

  /** C division truncates toward zero. */
  function Quotient(a: int, b: int): int
    requires b > 0
  {
    if a >= 0 then a / b else -((-a) / b)
  }

  /** The remainder that goes with it has the sign of the dividend. */
  function Remainder(a: int, b: int): int
    requires b > 0
  {
    a - b * Quotient(a, b)
  }

  lemma QuotientUnique(a: int, n: int, q: int, r: int)
    requires n > 0 && a == n * q + r && 0 <= r < n
    ensures a / n == q && a % n == r
  {
    var p, m := a / n, a % n;
    assert a == n * p + m && 0 <= m < n;
    if p > q {
      Distributes(n, p, q);
      AtLeast(n, p - q);
    } else if p < q {
      Distributes(n, q, p);
      AtLeast(n, q - p);
    }
  }

  lemma Distributes(n: int, p: int, q: int)
    ensures n * p - n * q == n * (p - q)
  {
  }

  lemma AtLeast(n: int, k: int)
    requires n > 0 && k > 0
    ensures n * k >= n
  {
    assert n * (k - 1) >= 0;
  }

  /** Truncated division, corrected when the remainder is negative, rounds down. */
  lemma CorrectedRoundsDown(a: int, b: int)
    requires b > 0
    ensures if Remainder(a, b) < 0 then Quotient(a, b) - 1 == a / b && Remainder(a, b) + b == a % b
            else Quotient(a, b) == a / b && Remainder(a, b) == a % b
  {
    var q, r := Quotient(a, b), Remainder(a, b);
    if a >= 0 {
      QuotientUnique(a, b, q, r);
    } else if r < 0 {
      Distributes(b, q, 1);
      QuotientUnique(a, b, q - 1, r + b);
    } else {
      QuotientUnique(a, b, q, r);
    }
  }
}
