/** Clock eviction: how often a rotating pointer comes by, and how many visits an entry survives. */
module ClockTurns {
  import opened Arith
  import opened Slots

  /** How far one step of an eviction run moves the clock pointer. */
  const STEP := 4

  /** ClockUpdate's effect on a metadata word when nobody interferes; an entry that goes leaves it empty. */
  function Tick(m: Meta): Meta {
    if !m.Shareable() || m.Refcount() != 0 then m
    else if m.state.Visible? && m.acquire > 0 then
      var n := if m.acquire > MAX_COUNTDOWN then MAX_COUNTDOWN - 1 else m.acquire - 1;
      m.(acquire := n, release := n)
    else EMPTY_META
  }

  function Ticks(m: Meta, k: nat): Meta {
    if k == 0 then m else Tick(Ticks(m, k - 1))
  }

  /** The next clock update removes the entry. */
  predicate Expired(m: Meta) { m.Shareable() && m.Refcount() == 0 && (m.state.Invisible? || m.acquire == 0) }

  lemma OneTick(m: Meta)
    ensures Ticks(m, 0) == m && Ticks(m, 1) == Tick(m)
    ensures m.Shareable() ==> (Tick(m).Shareable() <==> !Expired(m))
    ensures !m.Shareable() ==> Tick(m) == m
    ensures Expired(m) ==> Tick(m) == EMPTY_META
  {
    hide Ticks, Tick, Expired;
    TicksOne(m);
    TickEnds(m);
  }

  lemma TicksOne(m: Meta)
    ensures Ticks(m, 0) == m && Ticks(m, 1) == Tick(m)
  {
    hide Tick;
    assert Ticks(m, 0) == m;
  }

  lemma TickEnds(m: Meta)
    ensures m.Shareable() ==> (Tick(m).Shareable() <==> !Expired(m))
    ensures !m.Shareable() ==> Tick(m) == m
    ensures Expired(m) ==> Tick(m) == EMPTY_META
  {
  }

  predicate Pinned(m: Meta) { m.Shareable() && m.Refcount() != 0 }

  /** The clock updates that an unreferenced entry survives. */
  function Countdown(m: Meta): nat {
    if m.state.Invisible? then 0 else if m.acquire < MAX_COUNTDOWN then m.acquire else MAX_COUNTDOWN
  }

  /** A visible entry survives as many clock updates as its countdown says, but three at most, and goes
      with the next one; an invisible one goes with the first; a referenced one never goes. */
  lemma {:induction false} LifeIsExact(m: Meta, k: nat)
    requires m.Shareable()
    ensures Ticks(m, k) ==
      if m.Refcount() != 0 || k == 0 then m
      else if k <= Countdown(m) then m.(acquire := Countdown(m) - k, release := Countdown(m) - k)
      else EMPTY_META
  {
    if k > 0 {
      LifeIsExact(m, k - 1);
    }
  }

  lemma {:induction false} NothingToUpdate(m: Meta, k: nat)
    requires !m.Shareable()
    ensures Ticks(m, k) == m
  {
    if k > 0 {
      NothingToUpdate(m, k - 1);
    }
  }

  lemma StaysPinned(m: Meta, k: nat)
    ensures Pinned(Ticks(m, k)) <==> Pinned(m)
  {
    if m.Shareable() {
      LifeIsExact(m, k);
    } else {
      NothingToUpdate(m, k);
    }
  }

  /** Nothing to stop an eviction run for: too little freed so far, but not too little for the referenced
      entries met. */
  predicate WorthGoingOn(d: EvictionData, requested: nat, effortCap: nat) {
    d.freedCharge < requested && d.seenPinned < (d.freedCount + 1) * effortCap
  }

  /** How many of the numbers below `t` are `x` modulo `n`. */
  function Turns(n: nat, t: nat, x: nat): nat
    requires x < n
  {
    (t + n - 1 - x) / n
  }

  lemma TurnsIs(n: nat, q: nat, r: nat, x: nat)
    requires x < n && r < n
    ensures Turns(n, q * n + r, x) == q + if r > x then 1 else 0
  {
    var a := q * n + r + n - 1 - x;
    if r > x {
      OneMore(n, q);
      ModUnique(a, n, q + 1, r - 1 - x);
    } else {
      ModUnique(a, n, q, r + n - 1 - x);
    }
  }

  lemma TurnsStep(n: nat, t: nat, x: nat)
    requires x < n
    ensures Turns(n, t + 1, x) == Turns(n, t, x) + if t % n == x then 1 else 0
  {
    hide Turns;
    var q, r := t / n, t % n;
    assert t == q * n + r;
    TurnsIs(n, q, r, x);
    if r + 1 < n {
      TurnsIs(n, q, r + 1, x);
    } else {
      OneMore(n, q);
      TurnsIs(n, q + 1, 0, x);
    }
  }

  lemma OneMore(n: nat, q: nat)
    ensures (q + 1) * n == q * n + n
  {
  }

  /** `k` rounds give every position its `k` turns. */
  lemma {:induction false} TurnsTimes(n: nat, t: nat, u: nat, x: nat, k: nat)
    requires x < n && t + k * n <= u
    ensures Turns(n, u, x) >= Turns(n, t, x) + k
    decreases k
  {
    hide Turns;
    if k == 0 {
      TurnsMono(n, t, u, x);
    } else {
      OneMore(n, k - 1);
      TurnsOnce(n, t, x);
      TurnsTimes(n, t + n, u, x, k - 1);
    }
  }

  lemma TurnsOnce(n: nat, t: nat, x: nat)
    requires x < n
    ensures Turns(n, t + n, x) == Turns(n, t, x) + 1
  {
    hide Turns;
    var q, r := t / n, t % n;
    assert t == q * n + r;
    TurnsIs(n, q, r, x);
    OneMore(n, q);
    TurnsIs(n, q + 1, r, x);
  }

  lemma {:induction false} TurnsMono(n: nat, t: nat, u: nat, x: nat)
    requires x < n && t <= u
    ensures Turns(n, t, x) <= Turns(n, u, x)
    decreases u - t
  {
    hide Turns;
    if t < u {
      TurnsMono(n, t, u - 1, x);
      TurnsStep(n, u - 1, x);
    }
  }
}
