/** The circular LRU list and its three priority pools, on values; `nodes` mirrors the handles' fields. */
module LruList {
  import opened Slots
  import opened LruTable

  datatype Node = Node(next: Handle?, prev: Handle?, refs: nat, inCache: bool, high: bool, low: bool)

  type Nodes = map<Handle, Node>

  function ChargeSum(s: seq<Handle>): nat {
    if s == [] then 0 else s[0].charge + ChargeSum(s[1..])
  }

  lemma {:induction false} ChargeConcat(a: seq<Handle>, b: seq<Handle>)
    ensures ChargeSum(a + b) == ChargeSum(a) + ChargeSum(b)
  {
    if a == [] {
      assert a + b == b;
    } else {
      assert (a + b)[1..] == a[1..] + b;
      ChargeConcat(a[1..], b);
    }
  }

  function Without<T>(s: seq<T>, k: nat): (w: seq<T>)
    requires k < |s|
    ensures |w| == |s| - 1
  {
    s[..k] + s[k + 1..]
  }

  function With<T>(s: seq<T>, k: nat, x: T): (w: seq<T>)
    requires k <= |s|
    ensures |w| == |s| + 1
  {
    s[..k] + [x] + s[k..]
  }

  lemma WithoutAt<T>(s: seq<T>, k: nat, i: nat)
    requires k < |s| && i < |s| - 1
    ensures Without(s, k)[i] == s[if i < k then i else i + 1]
  {
  }

  lemma WithAt<T>(s: seq<T>, k: nat, x: T, i: nat)
    requires k <= |s| && i <= |s|
    ensures With(s, k, x)[i] == if i < k then s[i] else if i == k then x else s[i - 1]
  {
  }

  lemma NoDupWithout<T>(s: seq<T>, k: nat)
    requires NoDup(s) && k < |s|
    ensures NoDup(Without(s, k))
  {
    hide Without;
    var w := Without(s, k);
    forall i, j | 0 <= i < j < |w| ensures w[i] != w[j] {
      WithoutAt(s, k, i);
      WithoutAt(s, k, j);
    }
  }

  lemma NoDupWith<T>(s: seq<T>, k: nat, x: T)
    requires NoDup(s) && k <= |s| && x !in s
    ensures NoDup(With(s, k, x))
  {
    hide With;
    var w := With(s, k, x);
    forall i, j | 0 <= i < j < |w| ensures w[i] != w[j] {
      WithAt(s, k, x, i);
      WithAt(s, k, x, j);
    }
  }

  lemma {:induction false} ChargeWithout(s: seq<Handle>, k: nat)
    requires k < |s|
    ensures ChargeSum(s) == ChargeSum(Without(s, k)) + s[k].charge
  {
    if k == 0 {
      assert Without(s, k) == s[1..];
    } else {
      assert Without(s, k)[1..] == Without(s[1..], k - 1);
      ChargeWithout(s[1..], k - 1);
    }
  }

  lemma ChargeOne(h: Handle, s: seq<Handle>)
    ensures ChargeSum([h] + s) == h.charge + ChargeSum(s)
  {
    assert ([h] + s)[1..] == s;
  }

  lemma {:induction false} ChargeWith(s: seq<Handle>, k: nat, h: Handle)
    requires k <= |s|
    ensures ChargeSum(With(s, k, h)) == ChargeSum(s) + h.charge
  {
    if k == 0 {
      assert With(s, k, h) == [h] + s;
      ChargeOne(h, s);
    } else {
      assert With(s, k, h)[1..] == With(s[1..], k - 1, h);
      ChargeWith(s[1..], k - 1, h);
    }
  }

  // ---------------------------------------------------------------------------------------
  // The ring of the sentinel and the list

  function After(ring: seq<Handle>, i: nat): Handle
    requires i < |ring|
  {
    if i + 1 < |ring| then ring[i + 1] else ring[0]
  }

  function Before(ring: seq<Handle>, i: nat): Handle
    requires i < |ring|
  {
    if i > 0 then ring[i - 1] else ring[|ring| - 1]
  }

  ghost predicate Ringed(ring: seq<Handle>, nodes: Nodes) {
    && |ring| > 0 && NoDup(ring)
    && forall i | 0 <= i < |ring| ::
        ring[i] in nodes && nodes[ring[i]].next == After(ring, i) && nodes[ring[i]].prev == Before(ring, i)
  }

  function WithNext(nodes: Nodes, h: Handle, x: Handle?): (m: Nodes)
    requires h in nodes
    ensures m.Keys == nodes.Keys
  {
    nodes[h := nodes[h].(next := x)]
  }

  function WithPrev(nodes: Nodes, h: Handle, x: Handle?): (m: Nodes)
    requires h in nodes
    ensures m.Keys == nodes.Keys
  {
    nodes[h := nodes[h].(prev := x)]
  }

  /** The four pointer stores that take a handle out of the ring. */
  function Unlinked(nodes: Nodes, e: Handle, n: Handle, p: Handle): (m: Nodes)
    requires e in nodes && n in nodes && p in nodes
    ensures m.Keys == nodes.Keys
  {
    WithNext(WithPrev(WithNext(WithPrev(nodes, n, p), p, n), e, null), e, null)
  }

  /** The four pointer stores that put a handle after another one. */
  function LinkedAfter(nodes: Nodes, e: Handle, p: Handle, n: Handle): (m: Nodes)
    requires e in nodes && p in nodes && n in nodes
    ensures m.Keys == nodes.Keys
  {
    WithPrev(WithNext(WithPrev(WithNext(nodes, e, n), e, p), p, e), n, e)
  }

  lemma UnlinkedAt(ring: seq<Handle>, nodes: Nodes, k: nat, w: nat)
    requires Ringed(ring, nodes) && 0 < k < |ring| && w < |ring| && w != k
    ensures var m := Unlinked(nodes, ring[k], After(ring, k), Before(ring, k));
      && ring[w] in m
      && m[ring[w]].next == (if w == k - 1 then After(ring, k) else After(ring, w))
      && m[ring[w]].prev == if w == (if k + 1 < |ring| then k + 1 else 0) then ring[k - 1] else Before(ring, w)
  {
  }

  lemma UnlinkedRingAt(ring: seq<Handle>, nodes: Nodes, k: nat, i: nat)
    requires Ringed(ring, nodes) && 0 < k < |ring| && i < |ring| - 1
    ensures var r, m := Without(ring, k), Unlinked(nodes, ring[k], After(ring, k), Before(ring, k));
      r[i] in m && m[r[i]].next == After(r, i) && m[r[i]].prev == Before(r, i)
  {
    hide Ringed, Unlinked, Without;
    RingAt(ring, nodes, k);
    var n := |ring| - 1;
    UnlinkedAt(ring, nodes, k, if i < k then i else i + 1);
    WithoutAt(ring, k, i);
    WithoutAt(ring, k, if i + 1 < n then i + 1 else 0);
    WithoutAt(ring, k, if i > 0 then i - 1 else n - 1);
  }

  lemma UnlinkedRing(ring: seq<Handle>, nodes: Nodes, k: nat)
    requires Ringed(ring, nodes) && 0 < k < |ring|
    ensures Ringed(Without(ring, k), Unlinked(nodes, ring[k], After(ring, k), Before(ring, k)))
  {
    hide NoDup, Unlinked, Without;
    NoDupWithout(ring, k);
    var r, m := Without(ring, k), Unlinked(nodes, ring[k], After(ring, k), Before(ring, k));
    forall i | 0 <= i < |r| ensures r[i] in m && m[r[i]].next == After(r, i) && m[r[i]].prev == Before(r, i) {
      hide Ringed, After, Before;
      UnlinkedRingAt(ring, nodes, k, i);
    }
  }

  lemma LinkedAt(ring: seq<Handle>, nodes: Nodes, k: nat, e: Handle, w: nat)
    requires Ringed(ring, nodes) && k < |ring| && w < |ring| && e in nodes && e !in ring
    ensures var m := LinkedAfter(nodes, e, ring[k], After(ring, k));
      && ring[w] in m && e in m && m[e].next == After(ring, k) && m[e].prev == ring[k]
      && m[ring[w]].next == (if w == k then e else After(ring, w))
      && m[ring[w]].prev == if w == (if k + 1 < |ring| then k + 1 else 0) then e else Before(ring, w)
  {
  }

  lemma LinkedRingAt(ring: seq<Handle>, nodes: Nodes, k: nat, e: Handle, i: nat)
    requires Ringed(ring, nodes) && k < |ring| && e in nodes && e !in ring && i <= |ring|
    ensures var r, m := With(ring, k + 1, e), LinkedAfter(nodes, e, ring[k], After(ring, k));
      r[i] in m && m[r[i]].next == After(r, i) && m[r[i]].prev == Before(r, i)
  {
    hide Ringed, LinkedAfter, With;
    RingAt(ring, nodes, k);
    var n := |ring| + 1;
    LinkedAt(ring, nodes, k, e, if i <= k then i else i - 1);
    WithAt(ring, k + 1, e, i);
    WithAt(ring, k + 1, e, if i + 1 < n then i + 1 else 0);
    WithAt(ring, k + 1, e, if i > 0 then i - 1 else n - 1);
  }

  lemma LinkedRing(ring: seq<Handle>, nodes: Nodes, k: nat, e: Handle)
    requires Ringed(ring, nodes) && k < |ring| && e in nodes && e !in ring
    ensures Ringed(With(ring, k + 1, e), LinkedAfter(nodes, e, ring[k], After(ring, k)))
  {
    hide NoDup, LinkedAfter, With;
    NoDupWith(ring, k + 1, e);
    var r, m := With(ring, k + 1, e), LinkedAfter(nodes, e, ring[k], After(ring, k));
    forall i | 0 <= i < |r| ensures r[i] in m && m[r[i]].next == After(r, i) && m[r[i]].prev == Before(r, i) {
      hide Ringed, After, Before;
      LinkedRingAt(ring, nodes, k, e, i);
    }
  }

  // ---------------------------------------------------------------------------------------
  // The pools

  /** The list from oldest to newest: `nb` handles of bottom priority, then `nl` of low, then high. */
  datatype Pools = Pools(order: seq<Handle>, nb: nat, nl: nat, lowPri: Handle, bottomPri: Handle, highUsage: nat,
      lowUsage: nat)

  function Ring(lru: Handle, order: seq<Handle>): seq<Handle> { [lru] + order }

  ghost predicate Flagged(order: seq<Handle>, nb: nat, nl: nat, nodes: Nodes) {
    forall i | 0 <= i < |order| ::
      order[i] in nodes && nodes[order[i]].high == (i >= nb + nl) && nodes[order[i]].low == (nb <= i < nb + nl)
  }

  ghost predicate Marked(lru: Handle, p: Pools) {
    && p.nb + p.nl <= |p.order|
    && p.bottomPri == Ring(lru, p.order)[p.nb] && p.lowPri == Ring(lru, p.order)[p.nb + p.nl]
  }

  ghost predicate Weighed(p: Pools) {
    && p.nb + p.nl <= |p.order|
    && p.lowUsage == ChargeSum(p.order[p.nb..p.nb + p.nl]) && p.highUsage == ChargeSum(p.order[p.nb + p.nl..|p.order|])
  }

  ghost predicate ListOk(lru: Handle, p: Pools, nodes: Nodes) {
    Ringed(Ring(lru, p.order), nodes) && Flagged(p.order, p.nb, p.nl, nodes) && Marked(lru, p) && Weighed(p)
  }

  /** LRU_Remove of the handle at position `k`. */
  function RemovedAt(lru: Handle, p: Pools, k: nat, high: bool, low: bool): Pools
    requires k < |p.order| && (high ==> p.highUsage >= p.order[k].charge)
        && (!high && low ==> p.lowUsage >= p.order[k].charge)
  {
    var e, prev := p.order[k], Ring(lru, p.order)[k];
    Pools(Without(p.order, k), if k < p.nb then p.nb - 1 else p.nb, if p.nb <= k < p.nb + p.nl then p.nl - 1 else p.nl,
          StepBack(p.lowPri, e, prev), StepBack(p.bottomPri, e, prev),
          Less(p.highUsage, e.charge, high), Less(p.lowUsage, e.charge, !high && low))
  }

  function StepBack(mark: Handle, e: Handle, prev: Handle): Handle { if mark == e then prev else mark }

  function Less(usage: nat, charge: nat, counted: bool): nat
    requires counted ==> usage >= charge
  {
    if counted then usage - charge else usage
  }

  lemma SliceWithout<T>(s: seq<T>, k: nat, a: nat, b: nat)
    requires k < |s| && a <= b <= |s|
    ensures k < a ==> Without(s, k)[a - 1..b - 1] == s[a..b]
    ensures a <= k < b ==> Without(s, k)[a..b - 1] == Without(s[a..b], k - a)
    ensures b <= k ==> Without(s, k)[a..b] == s[a..b]
  {
    hide Without;
    var w := Without(s, k);
    if k < a {
      forall i | 0 <= i < b - a ensures w[a - 1..b - 1][i] == s[a..b][i] {
        WithoutAt(s, k, a - 1 + i);
      }
    } else if k < b {
      var x, y := w[a..b - 1], Without(s[a..b], k - a);
      forall i | 0 <= i < |x| ensures x[i] == y[i] {
        WithoutAt(s[a..b], k - a, i);
        WithoutAt(s, k, a + i);
      }
    } else {
      forall i | 0 <= i < b - a ensures w[a..b][i] == s[a..b][i] {
        WithoutAt(s, k, a + i);
      }
    }
  }

  lemma RemovedWeighed(lru: Handle, p: Pools, k: nat, high: bool, low: bool)
    requires Weighed(p) && k < |p.order| && high == (k >= p.nb + p.nl) && low == (p.nb <= k < p.nb + p.nl)
    ensures (high ==> p.highUsage >= p.order[k].charge) && (!high && low ==> p.lowUsage >= p.order[k].charge)
    ensures Weighed(RemovedAt(lru, p, k, high, low))
  {
    hide ChargeSum, Without;
    var m, n := p.nb + p.nl, |p.order|;
    SliceWithout(p.order, k, m, n);
    SliceWithout(p.order, k, p.nb, m);
    if high {
      ChargeWithout(p.order[m..n], k - m);
    } else if low {
      ChargeWithout(p.order[p.nb..m], k - p.nb);
    }
  }

  lemma RemovedMarked(lru: Handle, p: Pools, k: nat, high: bool, low: bool)
    requires Marked(lru, p) && NoDup(Ring(lru, p.order)) && Weighed(p)
    requires k < |p.order| && high == (k >= p.nb + p.nl) && low == (p.nb <= k < p.nb + p.nl)
    requires (high ==> p.highUsage >= p.order[k].charge) && (!high && low ==> p.lowUsage >= p.order[k].charge)
    ensures Marked(lru, RemovedAt(lru, p, k, high, low))
  {
    hide ChargeSum, Weighed, Less;
    var ring, r := Ring(lru, p.order), Ring(lru, Without(p.order, k));
    assert ring[k + 1] == p.order[k];
    assert p.bottomPri == p.order[k] <==> p.nb == k + 1;
    assert p.lowPri == p.order[k] <==> p.nb + p.nl == k + 1;
    assert forall i | 0 <= i < |r| :: r[i] == ring[if i <= k then i else i + 1];
  }

  lemma RemovedFlagged(order: seq<Handle>, nb: nat, nl: nat, nodes: Nodes, m: Nodes, k: nat)
    requires Flagged(order, nb, nl, nodes) && k < |order| && nb + nl <= |order|
    requires forall h | h in nodes :: h in m && m[h].high == nodes[h].high && m[h].low == nodes[h].low
    ensures Flagged(Without(order, k), if k < nb then nb - 1 else nb, if nb <= k < nb + nl then nl - 1 else nl, m)
  {
    var w := Without(order, k);
    assert forall i | 0 <= i < |w| :: w[i] == order[if i < k then i else i + 1];
  }

  /** Removal keeps the list, the segments and the pool counters right. */
  lemma RemoveOk(lru: Handle, p: Pools, nodes: Nodes, k: nat)
    requires ListOk(lru, p, nodes) && k < |p.order|
    ensures var e := p.order[k];
      && e in nodes && e != lru && nodes[e].next != null && nodes[e].next in nodes && nodes[e].prev != null
          && nodes[e].prev in nodes
      && nodes[e].next != e && nodes[e].prev != e
      && nodes[e].prev == Ring(lru, p.order)[k]
      && (nodes[e].high ==> p.highUsage >= e.charge) && (!nodes[e].high && nodes[e].low ==> p.lowUsage >= e.charge)
      && ListOk(lru, RemovedAt(lru, p, k, nodes[e].high, nodes[e].low),
          Unlinked(nodes, e, nodes[e].next, nodes[e].prev))
  {
    var ring, e := Ring(lru, p.order), p.order[k];
    var m := RemoveRing(lru, p.order, nodes, k);
    RemovedWeighed(lru, p, k, nodes[e].high, nodes[e].low);
    RemovedMarked(lru, p, k, nodes[e].high, nodes[e].low);
    RemovedFlagged(p.order, p.nb, p.nl, nodes, m, k);
  }

  lemma RemoveRing(lru: Handle, order: seq<Handle>, nodes: Nodes, k: nat) returns (m: Nodes)
    requires Ringed(Ring(lru, order), nodes) && k < |order|
    ensures var e := order[k];
      && e in nodes && e != lru && nodes[e].next != null && nodes[e].next in nodes && nodes[e].prev != null
          && nodes[e].prev in nodes
      && nodes[e].next != e && nodes[e].prev != e
      && nodes[e].prev == Ring(lru, order)[k]
      && m == Unlinked(nodes, e, nodes[e].next, nodes[e].prev) && Ringed(Ring(lru, Without(order, k)), m)
    ensures forall h | h in nodes :: h in m && m[h].high == nodes[h].high && m[h].low == nodes[h].low
  {
    hide Ringed, Unlinked;
    var ring, e := Ring(lru, order), order[k];
    assert ring[k + 1] == e && ring[0] == lru;
    RingAt(ring, nodes, k + 1);
    UnlinkedRing(ring, nodes, k + 1);
    assert Ring(lru, Without(order, k)) == Without(ring, k + 1);
    m := Unlinked(nodes, e, nodes[e].next, nodes[e].prev);
    UnlinkedFlags(nodes, e, After(ring, k + 1), ring[k]);
  }

  lemma RingAt(ring: seq<Handle>, nodes: Nodes, i: nat)
    requires Ringed(ring, nodes) && i < |ring|
    ensures ring[i] in nodes && (i > 0 ==> ring[i] != ring[0])
    ensures nodes[ring[i]].next == After(ring, i) && nodes[ring[i]].prev == Before(ring, i)
    ensures After(ring, i) in nodes && Before(ring, i) in nodes
        && (|ring| > 1 ==> After(ring, i) != ring[i] && Before(ring, i) != ring[i])
  {
  }

  lemma UnlinkedFlags(nodes: Nodes, e: Handle, n: Handle, p: Handle)
    requires e in nodes && n in nodes && p in nodes
    ensures forall h | h in nodes ::
      && h in Unlinked(nodes, e, n, p)
      && Unlinked(nodes, e, n, p)[h].high == nodes[h].high && Unlinked(nodes, e, n, p)[h].low == nodes[h].low
  {
  }

  // ---------------------------------------------------------------------------------------
  // Insertion

  /** The list position at which LRU_Insert puts a handle, by pool. */
  function Position(p: Pools, pool: Priority): nat {
    match pool
    case High => |p.order|
    case Low => p.nb + p.nl
    case Bottom => p.nb
  }

  function InsertedAt(p: Pools, pool: Priority, e: Handle): Pools
    requires p.nb + p.nl <= |p.order|
  {
    var order := With(p.order, Position(p, pool), e);
    match pool
    case High => p.(order := order, highUsage := p.highUsage + e.charge)
    case Low => p.(order := order, nl := p.nl + 1, lowPri := e, lowUsage := p.lowUsage + e.charge)
    case Bottom => p.(order := order, nb := p.nb + 1, bottomPri := e, lowPri := if p.bottomPri == p.lowPri then e
        else p.lowPri)
  }

  function Flag(nodes: Nodes, e: Handle, high: bool, low: bool): (m: Nodes)
    requires e in nodes
    ensures m.Keys == nodes.Keys
  {
    nodes[e := nodes[e].(high := high, low := low)]
  }

  lemma SliceWith<T>(s: seq<T>, k: nat, x: T, a: nat, b: nat)
    requires k <= |s| && a <= b <= |s|
    ensures k <= a ==> With(s, k, x)[a + 1..b + 1] == s[a..b]
    ensures a <= k <= b ==> With(s, k, x)[a..b + 1] == With(s[a..b], k - a, x)
    ensures b <= k ==> With(s, k, x)[a..b] == s[a..b]
  {
    hide With;
    var w := With(s, k, x);
    if k <= a {
      forall i | 0 <= i < b - a ensures w[a + 1..b + 1][i] == s[a..b][i] {
        WithAt(s, k, x, a + 1 + i);
      }
    }
    if a <= k <= b {
      var u, v := w[a..b + 1], With(s[a..b], k - a, x);
      forall i | 0 <= i < |u| ensures u[i] == v[i] {
        WithAt(s[a..b], k - a, x, i);
        WithAt(s, k, x, a + i);
      }
    }
    if b <= k {
      forall i | 0 <= i < b - a ensures w[a..b][i] == s[a..b][i] {
        WithAt(s, k, x, a + i);
      }
    }
  }

  lemma InsertedWeighed(p: Pools, pool: Priority, e: Handle)
    requires Weighed(p)
    ensures Weighed(InsertedAt(p, pool, e))
  {
    hide ChargeSum, With;
    var m, n, k := p.nb + p.nl, |p.order|, Position(p, pool);
    SliceWith(p.order, k, e, m, n);
    SliceWith(p.order, k, e, p.nb, m);
    if pool.High? {
      ChargeWith(p.order[m..n], k - m, e);
    } else if pool.Low? {
      ChargeWith(p.order[p.nb..m], k - p.nb, e);
    }
  }

  lemma InsertedMarked(lru: Handle, p: Pools, pool: Priority, e: Handle)
    requires Marked(lru, p) && NoDup(Ring(lru, p.order))
    ensures Marked(lru, InsertedAt(p, pool, e))
  {
    var ring, q := Ring(lru, p.order), InsertedAt(p, pool, e);
    var r, k := Ring(lru, q.order), Position(p, pool);
    assert forall i | 0 <= i < |r| :: r[i] == if i <= k then ring[i] else if i == k + 1 then e else ring[i - 1];
  }

  lemma InsertedFlagged(p: Pools, nodes: Nodes, m: Nodes, pool: Priority, e: Handle)
    requires Flagged(p.order, p.nb, p.nl, nodes) && p.nb + p.nl <= |p.order| && e in m && e !in p.order
    requires forall h | h in nodes && h != e :: h in m && m[h].high == nodes[h].high && m[h].low == nodes[h].low
    ensures var q := InsertedAt(p, pool, e); Flagged(q.order, q.nb, q.nl, Flag(m, e, pool.High?, pool.Low?))
  {
    hide With;
    var q, k := InsertedAt(p, pool, e), Position(p, pool);
    var m' := Flag(m, e, pool.High?, pool.Low?);
    forall i | 0 <= i < |q.order|
      ensures q.order[i] in m' && m'[q.order[i]].high == (i >= q.nb + q.nl)
          && m'[q.order[i]].low == (q.nb <= i < q.nb + q.nl)
    {
      WithAt(p.order, k, e, i);
    }
  }

  /** The handle a new one is put after, and what that handle's successor is. */
  function Pred(lru: Handle, p: Pools, pool: Priority): Handle
    requires p.nb + p.nl <= |p.order|
  {
    Ring(lru, p.order)[Position(p, pool)]
  }

  function Succ(lru: Handle, p: Pools, pool: Priority): Handle
    requires p.nb + p.nl <= |p.order|
  {
    After(Ring(lru, p.order), Position(p, pool))
  }

  lemma LinkedFlags(nodes: Nodes, e: Handle, p: Handle, n: Handle)
    requires e in nodes && n in nodes && p in nodes
    ensures forall h | h in nodes ::
      && h in LinkedAfter(nodes, e, p, n)
      && LinkedAfter(nodes, e, p, n)[h].high == nodes[h].high && LinkedAfter(nodes, e, p, n)[h].low == nodes[h].low
  {
  }

  lemma {:induction false} RingFlag(ring: seq<Handle>, nodes: Nodes, e: Handle, high: bool, low: bool)
    requires Ringed(ring, nodes) && e in nodes
    ensures Ringed(ring, Flag(nodes, e, high, low))
  {
  }

  /** Insertion keeps the list, the segments and the pool counters right. */
  lemma InsertOk(lru: Handle, p: Pools, nodes: Nodes, pool: Priority, e: Handle)
    requires ListOk(lru, p, nodes) && e in nodes && e !in Ring(lru, p.order)
    ensures var before, after := Pred(lru, p, pool), Succ(lru, p, pool);
      && before in nodes && after in nodes
      && nodes[before].next == after && nodes[after].prev == before
      && ListOk(lru, InsertedAt(p, pool, e), Flag(LinkedAfter(nodes, e, before, after), e, pool.High?, pool.Low?))
  {
    hide Ringed, LinkedAfter, Flag, Weighed, Flagged;
    var ring, k := Ring(lru, p.order), Position(p, pool);
    var before, after := Pred(lru, p, pool), Succ(lru, p, pool);
    RingAt(ring, nodes, k);
    RingAt(ring, nodes, if k + 1 < |ring| then k + 1 else 0);
    LinkedRing(ring, nodes, k, e);
    assert Ring(lru, With(p.order, k, e)) == With(ring, k + 1, e);
    LinkedFlags(nodes, e, before, after);
    RingFlag(With(ring, k + 1, e), LinkedAfter(nodes, e, before, after), e, pool.High?, pool.Low?);
    RingNoDup(ring, nodes);
    InsertedMarked(lru, p, pool, e);
    InsertedWeighed(p, pool, e);
    assert forall i | 0 <= i < |p.order| :: p.order[i] == ring[i + 1];
    InsertedFlagged(p, nodes, LinkedAfter(nodes, e, before, after), pool, e);
  }

  lemma RingNoDup(ring: seq<Handle>, nodes: Nodes)
    requires Ringed(ring, nodes)
    ensures NoDup(ring)
  {
  }

  // ---------------------------------------------------------------------------------------
  // MaintainPoolSize

  /** The oldest handle of the high-priority pool becomes the newest of the low-priority pool. */
  function OverflowHigh(p: Pools): Pools
    requires p.nb + p.nl < |p.order| && p.highUsage >= p.order[p.nb + p.nl].charge
  {
    var h := p.order[p.nb + p.nl];
    p.(nl := p.nl + 1, lowPri := h, highUsage := p.highUsage - h.charge, lowUsage := p.lowUsage + h.charge)
  }

  /** The oldest handle of the low-priority pool becomes the newest of the bottom-priority pool. */
  function OverflowLow(p: Pools): Pools
    requires p.nb < |p.order| && p.nl > 0 && p.lowUsage >= p.order[p.nb].charge
  {
    var h := p.order[p.nb];
    p.(nb := p.nb + 1, nl := p.nl - 1, bottomPri := h, lowUsage := p.lowUsage - h.charge)
  }

  lemma OverflowHighWeighed(p: Pools)
    requires Weighed(p) && p.highUsage > 0
    ensures p.nb + p.nl < |p.order| && p.highUsage >= p.order[p.nb + p.nl].charge && Weighed(OverflowHigh(p))
  {
    var m, n := p.nb + p.nl, |p.order|;
    var h := p.order[m];
    assert p.order[m..n] == [h] + p.order[m + 1..n];
    ChargeOne(h, p.order[m + 1..n]);
    assert p.order[p.nb..m + 1] == p.order[p.nb..m] + [h];
    ChargeConcat(p.order[p.nb..m], [h]);
  }

  lemma OverflowLowWeighed(p: Pools)
    requires Weighed(p) && p.lowUsage > 0
    ensures p.nb < |p.order| && p.nl > 0 && p.lowUsage >= p.order[p.nb].charge && Weighed(OverflowLow(p))
  {
    var m := p.nb + p.nl;
    var h := p.order[p.nb];
    assert p.order[p.nb..m] == [h] + p.order[p.nb + 1..m];
    ChargeOne(h, p.order[p.nb + 1..m]);
  }

  lemma FlagAt(order: seq<Handle>, nb: nat, nl: nat, nodes: Nodes, k: nat)
    requires Flagged(order, nb, nl, nodes) && k < |order|
    ensures order[k] in nodes && nodes[order[k]].high == (k >= nb + nl) && nodes[order[k]].low == (nb <= k < nb + nl)
  {
  }

  lemma FlaggedMove(order: seq<Handle>, nb: nat, nl: nat, nodes: Nodes, k: nat, nb': nat, nl': nat)
    requires Flagged(order, nb, nl, nodes) && NoDup(order) && k < |order|
    requires (k == nb + nl && nb' == nb && nl' == nl + 1) || (k == nb && nl > 0 && nb' == nb + 1 && nl' == nl - 1)
    ensures order[k] in nodes && Flagged(order, nb', nl', Flag(nodes, order[k], false, k == nb + nl))
  {
  }

  lemma OrderNoDup(lru: Handle, order: seq<Handle>)
    requires NoDup(Ring(lru, order))
    ensures NoDup(order) && lru !in order
  {
    var ring := Ring(lru, order);
    assert forall i | 0 <= i < |order| :: order[i] == ring[i + 1];
    assert ring[0] == lru;
  }

  lemma ListRange(lru: Handle, p: Pools, nodes: Nodes)
    requires ListOk(lru, p, nodes)
    ensures p.nb + p.nl <= |p.order|
  {
    hide Ringed, Flagged, NoDup;
  }

  /** A pool over its capacity is not empty, so the loop never reaches the sentinel. */
  lemma OverflowHighOk(lru: Handle, p: Pools, nodes: Nodes)
    requires ListOk(lru, p, nodes) && p.highUsage > 0
    ensures p.nb + p.nl < |p.order| && p.lowPri in nodes
    ensures var h := p.order[p.nb + p.nl];
      && nodes[p.lowPri].next == h && h != lru && h in nodes && nodes[h].high && p.highUsage >= h.charge
      && ListOk(lru, OverflowHigh(p), Flag(nodes, h, false, true))
  {
    hide Ringed, Weighed, Flag, Flagged, NoDup;
    OverflowHighWeighed(p);
    FlagAt(p.order, p.nb, p.nl, nodes, p.nb + p.nl);
    var ring, m := Ring(lru, p.order), p.nb + p.nl;
    RingAt(ring, nodes, m);
    RingNoDup(ring, nodes);
    OrderNoDup(lru, p.order);
    RingFlag(ring, nodes, p.order[m], false, true);
    FlaggedMove(p.order, p.nb, p.nl, nodes, m, p.nb, p.nl + 1);
  }

  lemma OverflowLowOk(lru: Handle, p: Pools, nodes: Nodes)
    requires ListOk(lru, p, nodes) && p.lowUsage > 0
    ensures p.nb < |p.order| && p.nl > 0 && p.bottomPri in nodes
    ensures var h := p.order[p.nb];
      && nodes[p.bottomPri].next == h && h != lru && h in nodes && nodes[h].low && p.lowUsage >= h.charge
      && ListOk(lru, OverflowLow(p), Flag(nodes, h, false, false))
  {
    hide Ringed, Weighed, Flag, Flagged, NoDup;
    OverflowLowWeighed(p);
    FlagAt(p.order, p.nb, p.nl, nodes, p.nb);
    var ring := Ring(lru, p.order);
    RingAt(ring, nodes, p.nb);
    RingNoDup(ring, nodes);
    OrderNoDup(lru, p.order);
    RingFlag(ring, nodes, p.order[p.nb], false, false);
    FlaggedMove(p.order, p.nb, p.nl, nodes, p.nb, p.nb + 1, p.nl - 1);
  }

  // ---------------------------------------------------------------------------------------
  // The list methods as a whole

  /** The handle at position `k` has been taken off the list. */
  ghost predicate Removed(lru: Handle, p: Pools, nodes: Nodes, k: nat, p': Pools, nodes': Nodes) {
    && k < |p.order| && Joined(nodes, p.order[k]) && nodes' == Unjoined(nodes, p.order[k])
    && p'.order == Without(p.order, k) && ListOk(lru, p', nodes')
    && p'.highUsage <= p.highUsage && p'.lowUsage <= p.lowUsage
  }

  lemma RemovedOk(lru: Handle, p: Pools, nodes: Nodes, k: nat)
    requires ListOk(lru, p, nodes) && k < |p.order|
    ensures var e := p.order[k];
      && Joined(nodes, e) && nodes[e].prev == Ring(lru, p.order)[k]
      && (nodes[e].high ==> p.highUsage >= e.charge) && (!nodes[e].high && nodes[e].low ==> p.lowUsage >= e.charge)
      && Removed(lru, p, nodes, k, RemovedAt(lru, p, k, nodes[e].high, nodes[e].low), Unjoined(nodes, e))
  {
    hide ListOk, Unlinked, Without;
    RemoveOk(lru, p, nodes, k);
  }

  /** A handle has been put into its pool, and the pools may have overflowed downwards. */
  ghost predicate Pushed(lru: Handle, p: Pools, nodes: Nodes, pool: Priority, e: Handle, p': Pools, nodes': Nodes) {
    && p.nb + p.nl <= |p.order| && p'.order == InsertedAt(p, pool, e).order && ListOk(lru, p', nodes')
    && nodes'.Keys == nodes.Keys && Rebooked(nodes', nodes, Ring(lru, p'.order))
  }

  /** A handle has been put at the newest end of its pool. */
  ghost predicate Entered(lru: Handle, p: Pools, nodes: Nodes, pool: Priority, e: Handle, p': Pools, nodes': Nodes) {
    && p.nb + p.nl <= |p.order| && p' == InsertedAt(p, pool, e) && ListOk(lru, p', nodes')
    && nodes'.Keys == nodes.Keys && Rebooked(nodes', nodes, Ring(lru, p'.order))
  }

  /** The nodes differ in pool flags at most. */
  ghost predicate OnlyFlags(m: Nodes, nodes: Nodes) {
    m.Keys == nodes.Keys && forall h | h in m :: m[h] == nodes[h].(high := m[h].high, low := m[h].low)
  }

  lemma OnlyFlagsRefl(nodes: Nodes)
    ensures OnlyFlags(nodes, nodes)
  {
  }

  lemma OnlyFlagsStep(nodes: Nodes, h: Handle, high: bool, low: bool)
    requires h in nodes
    ensures OnlyFlags(Flag(nodes, h, high, low), nodes)
  {
  }

  lemma OnlyFlagsTrans(a: Nodes, b: Nodes, c: Nodes)
    requires OnlyFlags(a, b) && OnlyFlags(b, c)
    ensures OnlyFlags(a, c)
  {
  }

  /** References and table membership are as they were, and so are the links of handles off the ring. */
  ghost predicate Rebooked(m: Nodes, nodes: Nodes, ring: seq<Handle>) {
    && m.Keys == nodes.Keys
    && forall h | h in m ::
         && m[h].refs == nodes[h].refs && m[h].inCache == nodes[h].inCache
         && (h !in ring ==> m[h].next == nodes[h].next && m[h].prev == nodes[h].prev)
  }

  lemma RebookedFlags(m: Nodes, mid: Nodes, nodes: Nodes, ring: seq<Handle>)
    requires OnlyFlags(m, mid) && Rebooked(mid, nodes, ring)
    ensures Rebooked(m, nodes, ring)
  {
  }

  lemma Entry(lru: Handle, p: Pools, nodes: Nodes)
    requires ListOk(lru, p, nodes)
    ensures lru in nodes && p.lowPri in nodes && p.bottomPri in nodes && p.nb + p.nl <= |p.order|
    ensures NoDup(Ring(lru, p.order)) && (p.bottomPri == p.lowPri <==> p.nl == 0)
  {
    hide ChargeSum;
    var ring := Ring(lru, p.order);
    RingAt(ring, nodes, 0);
    RingAt(ring, nodes, p.nb);
    RingAt(ring, nodes, p.nb + p.nl);
  }

  /** Where each pool's insertion finds its neighbours, and that it changes nothing off the ring. */
  lemma NewRing(lru: Handle, p: Pools, nodes: Nodes, pool: Priority, e: Handle)
    requires ListOk(lru, p, nodes) && e in nodes && e !in Ring(lru, p.order)
    ensures lru in nodes && p.lowPri in nodes && p.bottomPri in nodes
    ensures pool.High? ==> Pred(lru, p, pool) == nodes[lru].prev && Succ(lru, p, pool) == lru
    ensures pool.Low? ==> Pred(lru, p, pool) == p.lowPri && Succ(lru, p, pool) == nodes[p.lowPri].next
    ensures pool.Bottom? ==> Pred(lru, p, pool) == p.bottomPri && Succ(lru, p, pool) == nodes[p.bottomPri].next
    ensures var before, after := Pred(lru, p, pool), Succ(lru, p, pool);
      && before in nodes && after in nodes && before != e && after != e
      && Rebooked(Flag(LinkedAfter(nodes, e, before, after), e, pool.High?, pool.Low?), nodes,
          Ring(lru, InsertedAt(p, pool, e).order))
  {
    hide ChargeSum, Ringed, With, Flag, LinkedAfter, Rebooked, Flagged;
    var ring, k := Ring(lru, p.order), Position(p, pool);
    RingAt(ring, nodes, 0);
    RingAt(ring, nodes, p.nb);
    RingAt(ring, nodes, p.nb + p.nl);
    RingAt(ring, nodes, k);
    var r := Ring(lru, InsertedAt(p, pool, e).order);
    RingHas(lru, p.order, k, e);
    LinkedRebooked(nodes, e, Pred(lru, p, pool), Succ(lru, p, pool), pool.High?, pool.Low?, r);
  }

  lemma RingHas(lru: Handle, order: seq<Handle>, k: nat, e: Handle)
    requires k <= |order|
    ensures var ring, r := Ring(lru, order), Ring(lru, With(order, k, e)); e in r && forall h | h in ring :: h in r
  {
    hide With;
    var ring, r := Ring(lru, order), Ring(lru, With(order, k, e));
    WithAt(order, k, e, k);
    assert r[k + 1] == e;
    forall i | 0 <= i < |order| ensures order[i] in r {
      WithAt(order, k, e, if i < k then i else i + 1);
      assert r[(if i < k then i else i + 1) + 1] == order[i];
    }
    assert r[0] == lru;
  }

  lemma LinkedRebooked(nodes: Nodes, e: Handle, p: Handle, n: Handle, high: bool, low: bool, ring: seq<Handle>)
    requires e in nodes && p in nodes && n in nodes && e in ring && p in ring && n in ring
    ensures Rebooked(Flag(LinkedAfter(nodes, e, p, n), e, high, low), nodes, ring)
  {
  }

  /** `e` is linked into a ring of the mirrored handles. */
  ghost predicate Joined(nodes: Nodes, e: Handle) {
    && e in nodes && nodes[e].next != null && nodes[e].next in nodes && nodes[e].prev != null && nodes[e].prev in nodes
    && nodes[e].next != e && nodes[e].prev != e
  }

  ghost function Unjoined(nodes: Nodes, e: Handle): Nodes
    requires Joined(nodes, e)
  {
    Unlinked(nodes, e, nodes[e].next, nodes[e].prev)
  }
}
