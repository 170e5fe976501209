/** CacheReservationManagerImpl: memory used elsewhere is charged to the cache as dummy entries of
    256 KiB. What the cache answers to a run of dummy insertions is the parameter `room`, the number
    it accepts before it first refuses. */
module Reservation {

  const DUMMY := 256 * 1024

  function RoundUp(m: nat): (n: nat)
    ensures n % DUMMY == 0 && m <= n < m + DUMMY
  {
    (m + DUMMY - 1) / DUMMY * DUMMY
  }

  lemma LeastMultiple(m: nat, n: nat)
    requires n % DUMMY == 0 && m <= n
    ensures RoundUp(m) <= n
  {
  }

  /** Reserved size after an update to `m` that the cache does not refuse. */
  function Target(delayed: bool, reserved: nat, m: nat): nat {
    if m <= reserved && delayed && m >= reserved / 4 * 3 then reserved else RoundUp(m)
  }

  /** What the contract of UpdateCacheReservation promises about the reserved size. */
  lemma TargetKept(delayed: bool, reserved: nat, m: nat)
    requires reserved % DUMMY == 0
    ensures var t := Target(delayed, reserved, m);
      && t % DUMMY == 0 && m <= t
      && (!delayed ==> t == RoundUp(m))
      && (t == RoundUp(m) || (t == reserved && 4 * m >= 3 * t))
      && (delayed && 3 * reserved <= 4 * m < 4 * reserved ==> t == reserved)
      && (m == reserved ==> t == m)
  {
    hide RoundUp;
    ThreeQuarters(reserved);
    if m == reserved {
      LeastMultiple(m, m);
    }
  }

  lemma ThreeQuarters(reserved: nat)
    requires reserved % DUMMY == 0
    ensures 4 * (reserved / 4 * 3) == 3 * reserved
  {
    var k := reserved / DUMMY;
    assert reserved == 4 * (k * (DUMMY / 4));
  }

  class Manager {
    const delayed: bool
    var memoryUsed: nat
    var reserved: nat
    var handles: seq<nat>       // keys of the dummy entries held, newest last
    var nextKey: nat

    ghost predicate Valid()
      reads this
    {
      && reserved == |handles| * DUMMY
      && (forall i | 0 <= i < |handles| :: handles[i] < nextKey)
      && forall i, j | 0 <= i < j < |handles| :: handles[i] != handles[j]
    }

    constructor (delayed: bool)
      ensures Valid() && this.delayed == delayed && memoryUsed == reserved == 0 && handles == []
    {
      this.delayed := delayed;
      memoryUsed, reserved, handles, nextKey := 0, 0, [], 0;
    }

    method IncreaseCacheReservation(m: nat, room: nat) returns (ok: bool)
      requires Valid() && m > reserved
      modifies `reserved, `handles, `nextKey
      ensures Valid() && old(handles) <= handles
      ensures ok <==> m <= old(reserved) + room * DUMMY
      ensures ok ==> reserved == RoundUp(m)
      ensures !ok ==> |handles| == |old(handles)| + room && reserved < m
    {
      var n := 0;                 // dummy entries the cache has accepted
      while m > reserved
        invariant Valid() && old(handles) <= handles && n <= room && |handles| == |old(handles)| + n
        invariant reserved - DUMMY < m && (m > reserved || reserved == RoundUp(m))
        decreases m + DUMMY - reserved
      {
        if n == room {
          return false;
        }
        handles := handles + [nextKey];
        nextKey := nextKey + 1;
        reserved := reserved + DUMMY;
        n := n + 1;
        if m <= reserved {
          LeastMultiple(m, reserved);
        }
      }
      return true;
    }

    method DecreaseCacheReservation(m: nat)
      requires Valid() && m < reserved
      modifies `reserved, `handles
      ensures Valid() && reserved == RoundUp(m) && handles <= old(handles)
    {
      while m + DUMMY <= reserved
        invariant Valid() && m <= reserved && handles <= old(handles)
        decreases reserved
      {
        handles := handles[..|handles| - 1];
        reserved := reserved - DUMMY;
      }
      LeastMultiple(m, reserved);
    }

    /** UpdateCacheReservation: fails exactly when the cache refuses an insertion it needs. */
    method Update(m: nat, room: nat) returns (ok: bool)
      requires Valid()
      modifies this
      ensures Valid() && memoryUsed == m
      ensures ok <==> m <= old(reserved) + room * DUMMY
      ensures ok ==> reserved == Target(delayed, old(reserved), m)
      ensures !ok ==> |handles| == |old(handles)| + room && reserved < m
      ensures old(handles) <= handles || handles <= old(handles)
    {
      memoryUsed := m;
      if m == reserved {
        LeastMultiple(m, reserved);
        ok := true;
      } else if m > reserved {
        ok := IncreaseCacheReservation(m, room);
      } else if delayed && m >= reserved / 4 * 3 {
        ok := true;
      } else {
        DecreaseCacheReservation(m);
        ok := true;
      }
    }
  }

  // ---------------------------------------------------------------------------------------
  // Reserving through handles

  function Total(amounts: seq<nat>): nat {
    if amounts == [] then 0 else amounts[0] + Total(amounts[1..])
  }

  lemma {:induction false} TotalConcat(a: seq<nat>, b: seq<nat>)
    ensures Total(a + b) == Total(a) + Total(b)
  {
    if a == [] {
      assert a + b == b;
    } else {
      assert (a + b)[1..] == a[1..] + b;
      TotalConcat(a[1..], b);
    }
  }

  lemma {:induction false} TotalWithout(a: seq<nat>, i: nat)
    requires i < |a|
    ensures Total(a) == Total(a[..i] + a[i + 1..]) + a[i]
  {
    var rest := a[..i] + a[i + 1..];
    if i == 0 {
      assert rest == a[1..];
    } else {
      assert rest[1..] == a[1..][..i - 1] + a[1..][i..];
      TotalWithout(a[1..], i - 1);
    }
  }

  /** A manager used only through MakeCacheReservation and the destruction of its handles. */
  class HandleUser {
    const mgr: Manager
    var outstanding: seq<nat>   // amounts of the handles alive

    ghost predicate Valid()
      reads this, mgr
    {
      mgr.Valid() && mgr.memoryUsed == Total(outstanding) && (outstanding == [] ==> mgr.reserved == 0)
    }

    constructor (delayed: bool)
      ensures Valid() && fresh(mgr) && outstanding == []
    {
      mgr := new Manager(delayed);
      outstanding := [];
    }

    /** The handle exists, and counts, even when the cache refused. */
    method MakeCacheReservation(amount: nat, room: nat) returns (ok: bool)
      requires Valid()
      modifies this, mgr
      ensures Valid() && outstanding == old(outstanding) + [amount]
      ensures ok <==> Total(outstanding) <= old(mgr.reserved) + room * DUMMY
      ensures ok ==> mgr.reserved == Target(mgr.delayed, old(mgr.reserved), Total(outstanding))
    {
      TotalConcat(outstanding, [amount]);
      ok := mgr.Update(mgr.memoryUsed + amount, room);
      outstanding := outstanding + [amount];
    }

    method DestroyHandle(i: nat, room: nat) returns (ok: bool)
      requires Valid() && i < |outstanding|
      modifies this, mgr
      ensures Valid() && outstanding == old(outstanding)[..i] + old(outstanding)[i + 1..]
      ensures ok <==> Total(outstanding) <= old(mgr.reserved) + room * DUMMY
      ensures ok ==> mgr.reserved == Target(mgr.delayed, old(mgr.reserved), Total(outstanding))
    {
      TotalWithout(outstanding, i);
      TargetAtZero(mgr.reserved);
      ok := mgr.Update(mgr.memoryUsed - outstanding[i], room);
      outstanding := outstanding[..i] + outstanding[i + 1..];
    }

    /** Once every handle is destroyed, nothing stays reserved, whatever the cache refused before and
        whether or not decreases are delayed. */
    lemma NothingLeft()
      requires Valid() && outstanding == []
      ensures mgr.memoryUsed == 0 && mgr.reserved == 0 && mgr.handles == []
    {
    }
  }

  lemma TargetAtZero(reserved: nat)
    requires reserved % DUMMY == 0
    ensures Target(false, reserved, Total([])) == 0
    ensures Target(true, reserved, Total([])) == 0
  {
    assert reserved / 4 * 3 == 0 ==> reserved == 0;
  }

  // ---------------------------------------------------------------------------------------
  // Delta updates of the concurrent wrapper, in the order its mutex puts them

  function Max0(x: int): nat { if x > 0 then x else 0 }

  /** Memory used after a sequence of increases (positive) and decreases (negative). */
  function AfterDeltas(total: nat, deltas: seq<int>): nat
    decreases deltas
  {
    if deltas == [] then total else AfterDeltas(Max0(total + deltas[0]), deltas[1..])
  }

  function Net(deltas: seq<int>): int {
    if deltas == [] then 0 else deltas[0] + Net(deltas[1..])
  }

  /** No decrease ever asks for more than is there. */
  predicate Solvent(total: int, deltas: seq<int>)
    decreases deltas
  {
    total >= 0 && (deltas == [] || Solvent(total + deltas[0], deltas[1..]))
  }

  /** The updates add up exactly when none of them is clamped at zero; a clamp is never made up for. */
  lemma {:induction false} DeltasAddUp(total: nat, deltas: seq<int>)
    ensures AfterDeltas(total, deltas) >= total + Net(deltas)
    ensures AfterDeltas(total, deltas) == total + Net(deltas) <==> Solvent(total, deltas)
    decreases deltas
  {
    if deltas != [] {
      DeltasAddUp(Max0(total + deltas[0]), deltas[1..]);
      if total + deltas[0] < 0 {
        assert !Solvent(total + deltas[0], deltas[1..]);
      }
    }
  }

  class ConcurrentManager {
    const inner: Manager
    ghost var start: nat
    ghost var deltas: seq<int>  // the updates so far

    ghost predicate Valid()
      reads this, inner
    {
      inner.Valid() && inner.memoryUsed == AfterDeltas(start, deltas)
    }

    constructor (inner: Manager)
      requires inner.Valid()
      ensures Valid() && this.inner == inner && start == inner.memoryUsed && deltas == []
    {
      this.inner, start, deltas := inner, inner.memoryUsed, [];
    }

    method UpdateBy(delta: nat, increase: bool, room: nat) returns (ok: bool)
      requires Valid()
      modifies this, inner
      ensures Valid() && start == old(start) && deltas == old(deltas) + [if increase then delta else 0 - delta]
      ensures ok <==> inner.memoryUsed <= old(inner.reserved) + room * DUMMY
      ensures ok ==> inner.reserved == Target(inner.delayed, old(inner.reserved), inner.memoryUsed)
    {
      var d: int := if increase then delta else 0 - delta;
      AfterOneMore(start, deltas, d);
      deltas := deltas + [d];
      var total := inner.memoryUsed;
      if !increase {
        ok := inner.Update(if total > delta then total - delta else 0, room);
      } else {
        ok := inner.Update(total + delta, room);
      }
    }
  }

  lemma {:induction false} AfterOneMore(total: nat, deltas: seq<int>, d: int)
    ensures AfterDeltas(total, deltas + [d]) == Max0(AfterDeltas(total, deltas) + d)
    decreases deltas
  {
    if deltas == [] {
      assert deltas + [d] == [d];
    } else {
      assert (deltas + [d])[1..] == deltas[1..] + [d];
      AfterOneMore(Max0(total + deltas[0]), deltas[1..], d);
    }
  }
}
