/** Double hashing in FixedHyperClockTable: an odd increment over a power-of-two table. */
module FixedProbe {
  import opened Arith
  import opened Slots

  function Increment(key: HashedKey): (inc: nat)
    ensures inc % 2 == 1
  {
    if key.hi % 2 == 1 then key.hi else key.hi + 1
  }

  /** The slot visited by probe `i` in a table of 2^bits slots. */
  function Probe(bits: nat, key: HashedKey, i: nat): (s: nat)
    ensures s < Pow2(bits)
  {
    if i == 0 then key.lo % Pow2(bits) else (Probe(bits, key, i - 1) + Increment(key)) % Pow2(bits)
  }

  lemma {:induction false} ProbeClosed(bits: nat, key: HashedKey, i: nat)
    ensures Probe(bits, key, i) == (key.lo + i * Increment(key)) % Pow2(bits)
  {
    if i > 0 {
      ProbeClosed(bits, key, i - 1);
      ModAddMod(key.lo + (i - 1) * Increment(key), Increment(key), Pow2(bits));
      assert (i - 1) * Increment(key) + Increment(key) == i * Increment(key);
    }
  }

  /** An odd factor hides no power of two. */
  lemma {:induction false} OddCancels(bits: nat, d: nat, inc: nat)
    requires inc % 2 == 1 && (d * inc) % Pow2(bits) == 0
    ensures d % Pow2(bits) == 0
  {
    if bits > 0 {
      var m := Pow2(bits - 1);
      var q := (d * inc) / (2 * m);
      assert d * inc == 2 * (m * q);
      EvenProduct(d, inc);
      var h := d / 2;
      assert d == 2 * h;
      assert 2 * (h * inc) == 2 * (m * q);
      assert h * inc == q * m;
      ModUnique(h * inc, m, q, 0);
      OddCancels(bits - 1, h, inc);
      assert h == m * (h / m);
      assert d == (h / m) * (2 * m);
      ModUnique(d, 2 * m, h / m, 0);
    }
  }

  lemma EvenProduct(d: nat, inc: nat)
    requires inc % 2 == 1 && (d * inc) % 2 == 0
    ensures d % 2 == 0
  {
    var k := inc / 2;
    assert d * inc == 2 * (d * k) + d;
  }

  /** Before it has made 2^bits steps, a probe sequence never visits a slot twice. */
  lemma ProbesDiffer(bits: nat, key: HashedKey, i: nat, j: nat)
    requires i < j < Pow2(bits)
    ensures Probe(bits, key, i) != Probe(bits, key, j)
  {
    var inc := Increment(key);
    ProbeClosed(bits, key, i);
    ProbeClosed(bits, key, j);
    if Probe(bits, key, i) == Probe(bits, key, j) {
      ModDiff(key.lo + i * inc, key.lo + j * inc, Pow2(bits));
      assert (key.lo + j * inc) - (key.lo + i * inc) == (j - i) * inc;
      OddCancels(bits, j - i, inc);
      ModUnique(j - i, Pow2(bits), 0, j - i);
      assert false;
    }
  }

  /** After exactly 2^bits steps it is back at its first slot. */
  lemma ProbeReturns(bits: nat, key: HashedKey)
    ensures Probe(bits, key, Pow2(bits)) == Probe(bits, key, 0)
  {
    ProbeClosed(bits, key, Pow2(bits));
    ModAddMultiple(key.lo, Pow2(bits), Increment(key));
  }

  /** The inverse of an odd number modulo 2^bits, bit by bit: inc * x == 1 + 2^bits * q. */
  /** An inverse modulo `m` gives one modulo twice as much. */
  lemma DoubleInverse(m: nat, inc: nat, y: nat, r: int) returns (x: nat, q: int)
    requires inc % 2 == 1 && inc * y == 1 + m * r
    ensures inc * x == 1 + (2 * m) * q
  {
    if r % 2 == 0 {
      x, q := y, r / 2;
      Halve(m, r, q);
    } else {
      x, q := y + m, (r + inc) / 2;
      Halve(m, r + inc, q);
      Expand(inc, y, m);
      Expand(m, r, inc);
    }
  }

  lemma {:induction false} OddInverse(bits: nat, inc: nat) returns (x: nat, q: int)
    requires inc % 2 == 1
    ensures inc * x == 1 + Pow2(bits) * q
  {
    if bits == 0 {
      x, q := 0, -1;
    } else {
      var y, r := OddInverse(bits - 1, inc);
      x, q := DoubleInverse(Pow2(bits - 1), inc, y, r);
    }
  }

  lemma Halve(m: nat, r: int, q: int)
    requires r == 2 * q
    ensures m * r == (2 * m) * q
  {
  }

  lemma Expand(a: int, b: int, c: int)
    ensures a * (b + c) == a * b + a * c
  {
  }

  /** If inc * x is one more than a multiple of m, then t * x steps of inc cover a distance of t. */
  lemma Unscale(t: int, x: nat, inc: nat, m: nat, q: int, p: int)
    requires inc * x == 1 + m * q
    ensures (t * x - p * m) * inc == t + (t * q - p * inc) * m
  {
    calc {
      (t * x - p * m) * inc;
      t * (inc * x) - (p * inc) * m;
      t * (1 + m * q) - (p * inc) * m;
      { Expand(t, 1, m * q); }
      t + (t * q) * m - (p * inc) * m;
      { Expand(m, t * q, -(p * inc)); }
      t + (t * q - p * inc) * m;
    }
  }

  /** Every slot is visited by one of the first 2^bits probes. */
  lemma ProbeCovers(bits: nat, key: HashedKey, s: nat) returns (i: nat)
    requires s < Pow2(bits)
    ensures i < Pow2(bits) && Probe(bits, key, i) == s
  {
    var x, q := OddInverse(bits, Increment(key));
    i := Solve(key.lo, s, Increment(key), Pow2(bits), x, q);
    ProbeClosed(bits, key, i);
  }

  lemma Solve(lo: nat, s: nat, inc: nat, m: nat, x: nat, q: int) returns (i: nat)
    requires s < m && inc * x == 1 + m * q
    ensures i < m && (lo + i * inc) % m == s
  {
    var y := (s - lo) * x;
    var p := y / m;
    i := y % m;
    Unscale(s - lo, x, inc, m, q, p);
    var k := (s - lo) * q - p * inc;
    assert i == y - p * m;
    assert lo + i * inc == s + k * m;
    ModAddMultiple(s, m, k);
    ModUnique(s, m, 0, s);
  }

  ghost predicate Visits(bits: nat, key: HashedKey, s: nat, i: nat) {
    i < Pow2(bits) && Probe(bits, key, i) == s
  }

  lemma VisitExists(bits: nat, key: HashedKey, s: nat)
    requires s < Pow2(bits)
    ensures exists i: nat :: Visits(bits, key, s, i)
  {
    var i := ProbeCovers(bits, key, s);
    assert Visits(bits, key, s, i);
  }

  /** How many probes precede the one that visits slot `s`. */
  ghost function Dist(bits: nat, key: HashedKey, s: nat): (i: nat)
    requires s < Pow2(bits)
    ensures Visits(bits, key, s, i)
  {
    VisitExists(bits, key, s);
    var i: nat :| Visits(bits, key, s, i);
    i
  }

  lemma DistIs(bits: nat, key: HashedKey, i: nat)
    requires i < Pow2(bits)
    ensures Dist(bits, key, Probe(bits, key, i)) == i
  {
    var j := Dist(bits, key, Probe(bits, key, i));
    if i < j {
      ProbesDiffer(bits, key, i, j);
    } else if j < i {
      ProbesDiffer(bits, key, j, i);
    }
  }
}
