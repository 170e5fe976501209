/** The slot search of AutoHyperClockTable::DoInsert beyond its first probes: jumps by a fixed increment,
    with the start shifted by one whenever the jumps have come full circle. */
module AutoProbe {
  import opened Arith
  import FixedProbe

  const GOLDEN := 0x9E3779B185EBCA87

  /** FastRange64 of the golden ratio, varied a little by the hash, over the used length. */
  function Increment(hash: nat, length: nat): nat {
    (GOLDEN + hash / 64) * length / WORD
  }

  lemma IncrementInRange(hash: nat, length: nat)
    requires hash < WORD && length >= 2
    ensures 0 < Increment(hash, length) < length
  {
    var ratio := GOLDEN + hash / 64;
    assert 2 * ratio >= WORD && ratio < WORD;
    assert 2 * (ratio * length) == (2 * ratio) * length >= WORD * length;
    assert ratio * length >= WORD;
    assert ratio * length < WORD * length;
  }

  /** The jumps go by the golden ratio of the length, give or take two percent of the length and one slot. */
  lemma IncrementIsGolden(hash: nat, length: nat)
    requires hash < WORD
    ensures 618 * length - 1000 < 1000 * Increment(hash, length) <= 634 * length
  {
    var ratio := GOLDEN + hash / 64;
    assert 618 * WORD <= 1000 * ratio <= 634 * WORD;
    var p, q := ratio * length, Increment(hash, length);
    assert q * WORD <= p < q * WORD + WORD;
    assert 618 * WORD * length <= 1000 * ratio * length <= 634 * WORD * length by {
      MulMono(length, 618 * WORD, 1000 * ratio);
      MulMono(length, 1000 * ratio, 634 * WORD);
    }
    assert 1000 * p == 1000 * ratio * length;
    assert 618 * length * WORD == 618 * WORD * length && 634 * length * WORD == 634 * WORD * length;
  }

  /** Position `k` of a cycle of jumps. */
  function Pos(start: nat, incr: nat, length: nat, k: nat): nat
    requires length > 0
  {
    (start + k * incr) % length
  }

  /** The greatest common divisor, with the coefficients that make it up. */
  lemma {:induction false} Bezout(a: nat, b: nat) returns (g: nat, x: int, y: int)
    requires a > 0
    ensures g > 0 && a % g == 0 && b % g == 0 && a * x + b * y == g
    decreases b
  {
    if b == 0 {
      g, x, y := a, 1, 0;
      ModUnique(a, a, 1, 0);
    } else {
      var q, r := a / b, a % b;
      assert a == b * q + r;
      var x', y';
      g, x', y' := Bezout(b, r);
      x, y := y', x' - q * y';
      Recombine(a, b, q, r, x', y');
      Divides(b, r, q, g);
    }
  }

  lemma Recombine(a: nat, b: nat, q: nat, r: nat, x: int, y: int)
    requires a == b * q + r
    ensures a * y + b * (x - q * y) == b * x + r * y
  {
    calc {
      a * y + b * (x - q * y);
      (b * q + r) * y + b * x - b * (q * y);
      b * q * y + r * y + b * x - b * (q * y);
      { assert b * q * y == b * (q * y); }
      b * x + r * y;
    }
  }

  lemma Divides(b: nat, r: nat, q: nat, g: nat)
    requires g > 0 && b % g == 0 && r % g == 0
    ensures (b * q + r) % g == 0
  {
    var m, n := b / g, r / g;
    assert b == g * m && r == g * n;
    assert b * q + r == (m * q + n) * g by {
      assert g * m * q == m * q * g;
    }
    ModUnique(b * q + r, g, m * q + n, 0);
  }

  /** A cycle of jumps: `g` cycles of `d` positions make up the table. */
  datatype Cycle = Cycle(incr: nat, length: nat, g: nat, d: nat, a: nat, x: nat, q: int)

  ghost predicate CycleOk(c: Cycle) {
    && 0 < c.incr < c.length && c.length == c.g * c.d && c.incr == c.g * c.a && c.g >= 1 && c.d >= 2
    && c.a * c.x == 1 + c.d * c.q
  }

  lemma DivExact(n: nat, g: nat)
    requires g > 0 && n % g == 0
    ensures n == g * (n / g)
  {
  }

  lemma MulLess(g: nat, a: nat, d: nat)
    requires g > 0 && g * a < g * d
    ensures a < d
  {
    if d <= a {
      MulMono(g, d, a);
    }
  }

  lemma MulMono(g: nat, a: nat, b: nat)
    requires a <= b
    ensures g * a <= g * b
  {
  }

  lemma Assoc(a: int, b: int, c: int)
    ensures a * b * c == a * (b * c) == b * (a * c)
  {
  }

  lemma UnitCombination(g: nat, a: nat, d: nat, x: int, y: int)
    requires g > 0 && g * a * x + g * d * y == g
    ensures a * x + d * y == 1
  {
    Assoc(g, a, x);
    Assoc(g, d, y);
    FixedProbe.Expand(g, a * x, d * y);
    Cancel(g, a * x + d * y, 1);
  }

  lemma Normalize(a: nat, d: nat, x: int, y: int)
    requires d > 0 && a * x + d * y == 1
    ensures a * (x % d) == 1 + d * (-y - a * (x / d))
  {
    var t, r := x / d, x % d;
    assert x == r + d * t;
    FixedProbe.Expand(a, r, d * t);
    FixedProbe.Expand(d, -y, -(a * t));
    Assoc(a, d, t);
    Assoc(d, a, -t);
  }

  lemma MakeCycle(incr: nat, length: nat) returns (c: Cycle)
    requires 0 < incr < length
    ensures CycleOk(c) && c.incr == incr && c.length == length
  {
    var g, x, y := Bezout(incr, length);
    DivExact(incr, g);
    DivExact(length, g);
    var a, d := incr / g, length / g;
    MulLess(g, 0, a);
    MulLess(g, a, d);
    UnitCombination(g, a, d, x, y);
    Normalize(a, d, x, y);
    c := Cycle(incr, length, g, d, a, x % d, -y - a * (x / d));
  }

  lemma Cancel(g: nat, u: int, v: int)
    requires g > 0 && g * u == g * v
    ensures u == v
  {
    assert g * (u - v) == 0;
  }

  lemma FullCircle(c: Cycle)
    requires CycleOk(c)
    ensures c.d * c.incr == c.a * c.length
  {
    Assoc(c.d, c.g, c.a);
    Assoc(c.a, c.g, c.d);
  }

  /** Jumps return to the start after `d` steps and not before. */
  lemma FirstReturn(c: Cycle, start: nat, k: nat)
    requires CycleOk(c) && 0 < k <= c.d
    ensures Pos(start, c.incr, c.length, k) == Pos(start, c.incr, c.length, 0) <==> k == c.d
  {
    if k == c.d {
      FullCircle(c);
      ModAddMultiple(start, c.length, c.a);
    } else {
      NotYet(c, start, k);
    }
  }

  lemma NotYet(c: Cycle, start: nat, k: nat)
    requires CycleOk(c) && 0 < k < c.d
    ensures (start + k * c.incr) % c.length != start % c.length
  {
    if (start + k * c.incr) % c.length == start % c.length {
      ModDiff(start, start + k * c.incr, c.length);
      NoEarlyReturn(c, k);
      ModUnique(k, c.d, 0, k);
    }
  }

  lemma NoEarlyReturn(c: Cycle, k: nat)
    requires CycleOk(c) && (k * c.incr) % c.length == 0
    ensures k % c.d == 0
  {
    var m := (k * c.incr) / c.length;
    assert k * c.incr == c.length * m;
    Assoc(k, c.g, c.a);
    Assoc(c.g, c.d, m);
    Cancel(c.g, k * c.a, c.d * m);
    Collect(k, c.a, c.d, m, c.x, c.q);
    ModUnique(k, c.d, m * c.x - k * c.q, 0);
  }

  lemma Collect(k: int, a: int, d: int, m: int, x: int, q: int)
    requires k * a == d * m && a * x == 1 + d * q
    ensures k == (m * x - k * q) * d
  {
    Assoc(k, a, x);
    Assoc(d, m, x);
    FixedProbe.Expand(k, 1, d * q);
    Assoc(k, d, q);
    FixedProbe.Expand(d, m * x, -(k * q));
  }

  /** Steps that agree modulo `d` agree modulo the table, scaled by `g`. */
  lemma Lift(c: Cycle, k: nat, w: int) returns (z: int)
    requires CycleOk(c) && (k * c.a) % c.d == w % c.d
    ensures k * c.incr == c.g * w + z * c.length
  {
    var p, r := (k * c.a) / c.d, w / c.d;
    z := p - r;
    assert k * c.a == w + c.d * z by {
      assert k * c.a == c.d * p + w % c.d && w == c.d * r + w % c.d;
      FixedProbe.Expand(c.d, p, -r);
    }
    Assoc(k, c.g, c.a);
    FixedProbe.Expand(c.g, w, c.d * z);
    Assoc(c.g, c.d, z);
  }

  /** Shifting the start by one after each full circle reaches every slot within `g` circles. */
  lemma Covered(c: Cycle, start: nat, s: nat) returns (j: nat, k: nat)
    requires CycleOk(c) && s < c.length
    ensures j < c.g && k < c.d && Pos(start + j, c.incr, c.length, k) == s
  {
    var t := s - start;
    j := t % c.g;
    var w := t / c.g;
    assert t == c.g * w + j;
    k := FixedProbe.Solve(0, w % c.d, c.a, c.d, c.x, c.q);
    var z := Lift(c, k, w);
    assert start + j + k * c.incr == s + z * c.length;
    ModAddMultiple(s, c.length, z);
    ModUnique(s, c.length, 0, s);
  }

  /** Wrap-around by one subtraction is the next position. */
  lemma NextPos(start: nat, incr: nat, length: nat, k: nat)
    requires 0 < incr < length
    ensures var idx := Pos(start, incr, length, k);
      Pos(start, incr, length, k + 1) == if idx + incr >= length then idx + incr - length else idx + incr
  {
    var idx := Pos(start, incr, length, k);
    ModAddMod(start + k * incr, incr, length);
    assert (k + 1) * incr == k * incr + incr;
    if idx + incr >= length {
      ModUnique(idx + incr, length, 1, idx + incr - length);
    } else {
      ModUnique(idx + incr, length, 0, idx + incr);
    }
  }

  lemma TwoSteps(c: Cycle)
    requires CycleOk(c) && c.d == 2
    ensures 2 * c.incr == c.length
  {
    MulLess(c.g, c.a, 2);
    MulLess(c.g, 0, c.a);
  }

  /** Circles counted on from `before` until the count is twice the length: enough of them to have been
      everywhere, unless a count two above the length meets jumps over half the table. */
  lemma EnoughCircles(c: Cycle, circles: nat, before: nat)
    requires CycleOk(c) && before + circles * c.d >= 2 * c.length && before <= c.length + 2
    requires before == c.length + 2 ==> 2 * c.incr != c.length
    ensures circles >= c.g
  {
    if c.d == 2 {
      TwoSteps(c);
    }
    if circles < c.g {
      MulMono(c.d, circles + 1, c.g);
      FixedProbe.Expand(c.d, circles, 1);
    }
  }

  /** Circles counted from 3 until the count is the length itself: never more than cover the table. */
  lemma FirstCircles(c: Cycle, circles: nat)
    requires CycleOk(c) && 1 <= circles && (circles > 1 ==> 3 + (circles - 1) * c.d < c.length)
    ensures circles <= c.g && circles * c.d <= c.length
  {
    if c.g < circles {
      MulMono(c.d, c.g, circles - 1);
    }
    MulMono(c.d, circles, c.g);
  }

  /** A search that begins with a length one too small, jumps over half of the real length, and turns to
      the real length at the start of either half: it never looks at the last slot. */
  predicate Blind(lag: nat, length: nat, incr: nat, from: nat) {
    lag + 1 == length && 2 * incr == length && (from + 1 == incr || from + 1 == lag)
  }

  /** Jumps over half the table visit two slots a circle. */
  lemma HalfTable(c: Cycle)
    requires CycleOk(c) && 2 * c.incr == c.length
    ensures c.d == 2 && c.a == 1 && c.g == c.incr
  {
    Assoc(c.g, 2, c.a);
    Cancel(c.g, 2 * c.a, c.d);
    FixedProbe.Expand(c.a, c.x, -2 * c.q);
    Assoc(c.a, 2, c.q);
    assert c.a * (c.x - 2 * c.q) == 1;
    Unit(c.a, c.x - 2 * c.q);
  }

  lemma Unit(a: nat, y: int)
    requires a * y == 1
    ensures a == 1
  {
    if a >= 2 && y >= 1 {
      MulMono(a, 1, y);
    }
  }

  /** Two lengths that differ by one: jumps over half of the larger circle the smaller one in one go. */
  lemma OneCircle(c: Cycle)
    requires CycleOk(c) && 2 * c.incr == c.length + 1
    ensures c.g == 1 && c.d == c.length
  {
    Assoc(c.g, 2, c.a);
    FixedProbe.Expand(c.g, c.d, 2 * c.a - c.d);
    Unit(c.g, 2 * c.a - c.d);
  }

  /** All circles but one reach the last slot, unless they start at either half. */
  lemma LastSlot(c: Cycle, start: nat) returns (j: nat, k: nat)
    requires CycleOk(c) && 2 * c.incr == c.length && start < c.length - 1 && start != 0 && start != c.incr
    ensures j + 1 < c.g && k < c.d && Pos(start + j, c.incr, c.length, k) == c.length - 1
  {
    HalfTable(c);
    j, k := Covered(c, start, c.length - 1);
    if j + 1 == c.g {
      var p := start + j + k * c.incr;
      assert p == start + c.g - 1 || p == start + c.length - 1;
      if p >= c.length {
        ModUnique(p, c.length, 1, p - c.length);
      } else {
        ModUnique(p, c.length, 0, p);
      }
    }
  }

  lemma LastSlotMissed(c: Cycle, start: nat, j: nat, k: nat)
    requires CycleOk(c) && 2 * c.incr == c.length && (start == 0 || start == c.incr) && j + 1 < c.g && k < c.d
    ensures Pos(start + j, c.incr, c.length, k) != c.length - 1
  {
    HalfTable(c);
    var p := start + j + k * c.incr;
    assert p == j || p == j + c.incr || p == j + c.length;
    if p >= c.length {
      ModUnique(p, c.length, 1, p - c.length);
    } else {
      ModUnique(p, c.length, 0, p);
    }
  }
}
