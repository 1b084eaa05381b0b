/** Small facts of integer arithmetic, kept out of the larger proofs. */
module Arith {

  lemma MulLeq(a: int, b: int, r: int)
    requires a <= b && r >= 0
    ensures a * r <= b * r
  {
    assert b * r - a * r == (b - a) * r;
  }

  /** Euclidean division is determined by any quotient and in-range remainder. */
  lemma DivModUnique(x: int, r: int, q: int, k: int)
    requires r > 0 && 0 <= k < r && x == q * r + k
    ensures x / r == q && x % r == k
  {
    var q2, k2 := x / r, x % r;
    assert x == q2 * r + k2;
    if q2 > q {
      MulLeq(q + 1, q2, r);
    } else if q2 < q {
      MulLeq(q2 + 1, q, r);
    }
  }

  lemma MulMod(r: nat, m: nat)
    requires r > 0
    ensures (r * m) % r == 0 && (r * m) / r == m
  {
    DivModUnique(r * m, r, m, 0);
  }

  lemma DivExact(n: nat, r: nat)
    requires r > 0 && n % r == 0
    ensures r * (n / r) == n
  {
  }

  lemma MulComm(a: int, b: int)
    ensures a * b == b * a
  {
  }

  lemma MulAssoc(a: int, b: int, c: int)
    ensures (a * b) * c == a * (b * c)
  {
  }

  lemma MulLt(a: int, b: int, r: int)
    requires a < b && r > 0
    ensures a * r < b * r
  {
    assert b * r - a * r == (b - a) * r;
  }

  lemma FactorsPositive(a: nat, b: nat)
    requires a * b > 0
    ensures a > 0 && b > 0
  {
  }

  /** Reducing before adding does not change the sum's remainder. */
  lemma ModAdd(x: nat, y: nat, r: nat)
    requires r > 0
    ensures (x % r + y) % r == (x + y) % r
  {
    var a, b := x / r, x % r;
    var c := (b + y) / r;
    DivModUnique(x + y, r, a + c, (b + y) % r);
  }

  /** A low digit below base and a high part below count make a number below base * count, and division takes them apart again. */
  lemma Join(lo: int, hi: int, base: int, count: int)
    requires 0 <= lo < base && 0 <= hi < count
    ensures 0 <= lo + base * hi < base * count
    ensures (lo + base * hi) % base == lo && (lo + base * hi) / base == hi
  {
    MulLeq(hi + 1, count, base);
    DivModUnique(lo + base * hi, base, hi, lo);
  }

  /** A number below base * count splits into a low digit below base and a high part below count. */
  lemma Split(n: int, base: int, count: int)
    requires base > 0 && 0 <= n < base * count
    ensures 0 <= n % base < base && 0 <= n / base < count && n % base + base * (n / base) == n
    ensures (n / base) * base + n % base == n
  {
    if n / base >= count {
      MulLeq(count, n / base, base);
    }
  }

  /** Euclidean division splits a number into quotient and remainder. */
  lemma DivModSplit(x: int, r: int)
    requires r > 0
    ensures x == (x / r) * r + x % r && 0 <= x % r < r
  {
  }

  /** Adding or taking away one modulus leaves the remainder. */
  lemma ModShift(x: int, n: int)
    requires n > 0
    ensures (x + n) % n == x % n && (x - n) % n == x % n
  {
    DivModUnique(x + n, n, x / n + 1, x % n);
    DivModUnique(x - n, n, x / n - 1, x % n);
  }

  /** Offsets with the same remainder give sums with the same remainder. */
  lemma ModSum(i: int, a: int, b: int, n: int)
    requires n > 0 && a % n == b % n
    ensures (i + a) % n == (i + b) % n
  {
    DivModUnique(i + a, n, (i + a) / n, (i + a) % n);
    DivModUnique(i + b, n, (i + a) / n + b / n - a / n, (i + a) % n);
  }
}
