/** The bit-level arithmetic that the tables and the trace ring use: powers
    of two, and bitwise `&` on non-negative integers. */
module Bits {

  /** `n` is 2^k for some k; every table size in the core is. */
  predicate IsPow2(n: nat)
  {
    n == 1 || (n > 1 && n % 2 == 0 && IsPow2(n / 2))
  }

  /** Bitwise `&` of two non-negative integers, defined bit by bit. */
  function BitAnd(a: nat, b: nat): nat
  {
    if a == 0 || b == 0 then 0
    else 2 * BitAnd(a / 2, b / 2) + (if a % 2 == 1 && b % 2 == 1 then 1 else 0)
  }

  lemma MulAtLeast(m: int, d: int)
    requires m > 0 && d >= 1
    ensures m * d >= m
  {
    if d > 1 {
      MulAtLeast(m, d - 1);
      assert m * d == m * (d - 1) + m;
    }
  }

  lemma ModUnique(a: int, m: int, s: int, x: int)
    requires m > 0 && a == m * s + x && 0 <= x < m
    ensures a % m == x && a / m == s
  {
    var q, r := a / m, a % m;
    assert a == m * q + r;
    assert m * (s - q) == r - x by {
      assert m * (s - q) == m * s - m * q;
    }
    if s - q >= 1 {
      MulAtLeast(m, s - q);
    } else if q - s >= 1 {
      MulAtLeast(m, q - s);
    }
  }

  /** Halving splits a remainder modulo an even number. */
  lemma ModDouble(a: nat, p: nat)
    requires p > 0
    ensures a % (2 * p) == 2 * ((a / 2) % p) + a % 2
  {
    var t := (a / 2) % p;
    var s := (a / 2) / p;
    assert a / 2 == p * s + t;
    assert a == (2 * p) * s + (2 * t + a % 2) by {
      assert a == 2 * (a / 2) + a % 2;
      assert 2 * (p * s) == (2 * p) * s;
    }
    ModUnique(a, 2 * p, s, 2 * t + a % 2);
  }

  /** One step of `BitAnd` against an odd mask. */
  lemma BitAndOdd(a: nat, m: nat)
    requires a > 0 && m % 2 == 1
    ensures BitAnd(a, m) == 2 * BitAnd(a / 2, m / 2) + a % 2
  {
  }

  /** `a & mask`, with `mask + 1` a power of two, keeps the low bits of `a`:
      it is `a mod (mask + 1)`, a bucket index below `mask + 1`. */
  lemma {:induction false} AndMask(a: nat, mask: nat)
    requires IsPow2(mask + 1)
    ensures BitAnd(a, mask) == a % (mask + 1)
  {
    if mask == 0 {
    } else if a == 0 {
    } else {
      var p := (mask + 1) / 2;
      assert mask / 2 == p - 1 && mask % 2 == 1;
      BitAndOdd(a, mask);
      AndMask(a / 2, p - 1);
      ModDouble(a, p);
    }
  }
}
