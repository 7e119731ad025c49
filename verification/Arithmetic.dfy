/**
 Facts about products and remainders by a variable.

 Indices that wrap around, positions on a grid of octaves and keys, sums kept in eight bits and mixes
 of two levels all multiply or divide by something that is not a constant.  The few facts needed about
 that are proved here, each on its own, and named where they are used.

 Division and remainder are Euclidean: the remainder is never negative.  The firmware divides
 non-negative numbers only, except where a shift to the right rounds down, which is the same.

 None of this models anything in the firmware.
 */
module Arithmetic {
  lemma Distribute(a: int, c: int)
    ensures (a + 1) * c == a * c + c
  {
  }

  lemma MulMonotone(a: nat, b: nat, c: nat)
    requires a <= b
    ensures a * c <= b * c
  {
  }

  lemma MulCancel(a: nat, b: nat, c: nat)
    requires a * c <= b * c && c > 0
    ensures a <= b
  {
    Distribute(b, c);
    if a > b {
      MulMonotone(b + 1, a, c);
    }
  }

  lemma Regroup(a: nat, b: nat, c: nat)
    ensures a * b * c == a * c * b
  {
  }

  lemma QuotientUnique(x: int, n: nat, q: int, r: nat)
    requires r < n && x == q * n + r
    ensures x % n == r && x / n == q
  {
    var q' := x / n;
    assert (q - q') * n == x % n - r;
    if q > q' {
      MulMonotone(1, q - q', n);
    } else if q < q' {
      assert (q' - q) * n == r - x % n;
      MulMonotone(1, q' - q, n);
    }
  }

  /** A sum may be brought into a byte before or after the last addend. */
  lemma AddMod(a: int, b: int)
    ensures (a % 256 + b) % 256 == (a + b) % 256
  {
  }

  /** Counting on by one, modulo n. */
  lemma RemainderStep(x: int, n: nat)
    requires n > 0
    ensures (x + 1) % n == if x % n == n - 1 then 0 else x % n + 1
    ensures 0 <= x + 1 < n ==> (x + 1) % n == x + 1
  {
    var q, r := x / n, x % n;
    assert x == q * n + r;
    Distribute(q, n);
    QuotientUnique(x + 1, n, if r == n - 1 then q + 1 else q, if r == n - 1 then 0 else r + 1);
    if 0 <= x + 1 < n {
      QuotientUnique(x + 1, n, 0, x + 1);
    }
  }

  lemma DoubleRemainder(x: nat, half: nat)
    requires half > 0
    ensures x % (2 * half) == 2 * (x / 2 % half) + x % 2
  {
    var q, r := x / 2 / half, x / 2 % half;
    assert x == 2 * (q * half + r) + x % 2;
    assert q * (2 * half) == 2 * (q * half);
    QuotientUnique(x, 2 * half, q, 2 * r + x % 2);
  }

  /** One wrap at most brings a value into range. */
  lemma RemainderCases(x: int, n: nat)
    requires 0 < n && -(n as int) <= x < 2 * n
    ensures x % n == if x < 0 then x + n else if x < n then x else x - n
  {
    QuotientUnique(x, n, if x < 0 then -1 else if x < n then 0 else 1,
        if x < 0 then x + n else if x < n then x else x - n);
  }
}
