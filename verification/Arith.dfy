/** Powers of two and remainders, as used by hash-bit masks and table indices. */
module Arith {

  const WORD := 0x1_0000_0000_0000_0000   // 2^64

  function Min(a: int, b: int): int { if a < b then a else b }

  function Pow2(n: nat): (p: nat)
    ensures p >= 1
  {
    if n == 0 then 1 else 2 * Pow2(n - 1)
  }

  lemma {:induction false} Pow2Adds(a: nat, b: nat)
    ensures Pow2(a + b) == Pow2(a) * Pow2(b)
    decreases a
  {
    if a > 0 {
      Pow2Adds(a - 1, b);
    }
  }

  lemma {:induction false} Pow2Mono(a: nat, b: nat)
    requires a <= b
    ensures Pow2(a) <= Pow2(b)
    decreases b - a
  {
    if a < b {
      Pow2Mono(a + 1, b);
    }
  }

  /** The largest s with 2^s <= x. */
  function FloorLog2(x: nat): (s: nat)
    requires x >= 1
    ensures Pow2(s) <= x < Pow2(s + 1)
  {
    if x == 1 then 0 else 1 + FloorLog2(x / 2)
  }

  lemma FloorLog2Unique(x: nat, s: nat)
    requires Pow2(s) <= x < Pow2(s + 1)
    ensures x >= 1 && FloorLog2(x) == s
  {
    var f := FloorLog2(x);
    if f < s {
      Pow2Mono(f + 1, s);
    } else if s < f {
      Pow2Mono(s + 1, f);
    }
  }

  /** A remainder is determined by any decomposition. */
  lemma ModUnique(x: int, m: nat, q: int, r: int)
    requires m > 0 && 0 <= r < m && x == q * m + r
    ensures x % m == r && x / m == q
  {
    var d := x / m - q;
    assert x == m * (x / m) + x % m;
    assert m * d == r - x % m by {
      assert m * d == m * (x / m) - m * q;
    }
  }

  lemma ModAddMultiple(x: int, m: nat, q: int)
    requires m > 0
    ensures (x + q * m) % m == x % m
  {
    assert x == (x / m) * m + x % m;
    assert x + q * m == (x / m + q) * m + x % m;
    ModUnique(x + q * m, m, x / m + q, x % m);
  }

  lemma ModAddMod(x: int, y: int, m: nat)
    requires m > 0
    ensures (x % m + y) % m == (x + y) % m
  {
    assert x + y == (x % m + y) + (x / m) * m;
    ModAddMultiple(x % m + y, m, x / m);
  }

  /** Taking one more low bit either keeps the remainder or adds that bit. */
  lemma ModDouble(x: nat, m: nat)
    requires m > 0
    ensures x % (2 * m) == x % m || x % (2 * m) == x % m + m
    ensures x % (2 * m) % m == x % m
  {
    var r := x % (2 * m);
    assert x == r + (2 * (x / (2 * m))) * m;
    ModAddMultiple(r, m, 2 * (x / (2 * m)));
    if r < m {
      ModUnique(r, m, 0, r);
    } else {
      ModUnique(r, m, 1, r - m);
    }
  }

  /** Low bits of low bits. */
  lemma {:induction false} ModPow2Nested(x: nat, a: nat, b: nat)
    requires a <= b
    ensures x % Pow2(b) % Pow2(a) == x % Pow2(a)
    decreases b - a
  {
    if a == b {
      ModUnique(x % Pow2(b), Pow2(a), 0, x % Pow2(b));
    } else {
      ModPow2Nested(x, a + 1, b);
      ModDouble(x % Pow2(b), Pow2(a));
      ModDouble(x, Pow2(a));
    }
  }

  lemma ModDiff(x: int, y: int, m: nat)
    requires m > 0 && x % m == y % m
    ensures (y - x) % m == 0
  {
    var a, b := x / m, y / m;
    assert y - x == (b - a) * m;
    ModUnique(y - x, m, b - a, 0);
  }
}
