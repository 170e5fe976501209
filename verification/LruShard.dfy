/** LRUCacheShard: the hash table, the LRU list with its pools, reference counts and usage counters,
    as updated under the shard's mutex. Sums are unbounded; pool capacities are computed over reals. */
module LruShard {
  import opened Slots
  import opened LruTable
  import opened LruList
  import opened LruBooks

  ghost function NodeOf(h: Handle): Node
    reads h`next, h`prev, h`refs, h`inCache, h`inHigh, h`inLow
  {
    Node(h.next, h.prev, h.refs, h.inCache, h.inHigh, h.inLow)
  }

  /** A pool's share of the capacity, without the fraction. */
  function PoolCap(capacity: nat, ratio: real): (cap: nat)
    requires ratio >= 0.0
    ensures cap as real <= capacity as real * ratio < cap as real + 1.0
  {
    (capacity as real * ratio).Floor
  }

  class Shard {
    var capacity: nat
    var strict: bool
    var highRatio: real
    var lowRatio: real
    var highCap: nat
    var lowCap: nat
    var usage: nat
    var lruUsage: nat
    var highUsage: nat
    var lowUsage: nat
    const table: HandleTable
    const lru: Handle
    var lowPri: Handle
    var bottomPri: Handle
    ghost var order: seq<Handle>     // the list from oldest to newest
    ghost var nb: nat                // how many of them are in the bottom-priority pool,
    ghost var nl: nat                // and in the low-priority pool
    ghost var nodes: Nodes
    ghost var pinned: seq<Handle>    // the handles with references
    ghost var freed: seq<Handle>     // the handles freed so far

    ghost function P(): Pools
      reads `order, `nb, `nl, `lowPri, `bottomPri, `highUsage, `lowUsage
    {
      Pools(order, nb, nl, lowPri, bottomPri, highUsage, lowUsage)
    }

    ghost predicate Mirrored()
      reads `nodes, nodes.Keys`next, nodes.Keys`prev, nodes.Keys`refs, nodes.Keys`inCache, nodes.Keys`inHigh,
          nodes.Keys`inLow
    {
      forall h | h in nodes :: NodeOf(h) == nodes[h]
    }

    constructor (capacity: nat, strict: bool, highRatio: real, lowRatio: real, maxBits: nat)
      requires highRatio >= 0.0 && lowRatio >= 0.0
      ensures Valid() && Bounded() && order == [] && pinned == [] && freed == [] && table.contents == map[]
          && usage == 0
      ensures this.capacity == capacity && this.strict == strict && fresh(table) && fresh(lru) && fresh(table.list)
    {
      hide PoolCap, Held, HandleTable.Valid;
      this.capacity, this.strict, this.highRatio, this.lowRatio := capacity, strict, highRatio, lowRatio;
      highCap, lowCap := PoolCap(capacity, highRatio), PoolCap(capacity, lowRatio);
      usage, lruUsage, highUsage, lowUsage := 0, 0, 0, 0;
      table := new HandleTable(maxBits);
      var sentinel := new Handle(Key(0, ""), 0);
      lru, lowPri, bottomPri := sentinel, sentinel, sentinel;
      order, nb, nl, pinned, freed := [], 0, 0, [], [];
      new;
      Start();
    }

    /** The empty circular list. */
    method Start()
      requires lowPri == bottomPri == lru && lru.refs == 0 && !lru.inCache && order == [] && nb == nl == 0
          && pinned == [] && freed == []
      requires usage == lruUsage == highUsage == lowUsage == 0 && table.Valid() && table.contents == map[]
          && Configured()
      modifies `nodes, lru
      ensures Valid() && Bounded()
    {
      hide PoolCap, Sound, HandleTable.Valid;
      lru.next, lru.prev := lru, lru;
      nodes := map[lru := NodeOf(lru)];
      EmptySound(lru, nodes[lru]);
    }

    // -------------------------------------------------------------------------------------
    // The list

    lemma MirrorAt(h: Handle)
      requires Mirrored() && h in nodes
      ensures NodeOf(h) == nodes[h]
    {
    }

    method SetNext(h: Handle, x: Handle?)
      requires Mirrored() && h in nodes
      modifies `nodes, h`next
      ensures Mirrored() && nodes == WithNext(old(nodes), h, x)
    {
      h.next := x;
      nodes := WithNext(nodes, h, x);
    }

    method SetPrev(h: Handle, x: Handle?)
      requires Mirrored() && h in nodes
      modifies `nodes, h`prev
      ensures Mirrored() && nodes == WithPrev(old(nodes), h, x)
    {
      h.prev := x;
      nodes := WithPrev(nodes, h, x);
    }

    method Unlink(e: Handle)
      requires Mirrored() && Joined(nodes, e)
      modifies `nodes, nodes.Keys`next, nodes.Keys`prev
      ensures Mirrored() && nodes == Unjoined(old(nodes), e)
    {
      hide Mirrored, WithNext, WithPrev;
      MirrorAt(e);
      var n, p := e.next, e.prev;
      SetPrev(n, p);
      SetNext(p, n);
      SetPrev(e, null);
      SetNext(e, null);
    }

    method LinkAfter(e: Handle, p: Handle, n: Handle)
      requires Mirrored() && e in nodes && n in nodes && p in nodes && nodes[p].next == n && e != n && e != p
      modifies `nodes, nodes.Keys`next, nodes.Keys`prev
      ensures Mirrored() && nodes == LinkedAfter(old(nodes), e, p, n)
    {
      hide Mirrored, WithNext, WithPrev;
      SetNext(e, n);
      SetPrev(e, p);
      SetNext(p, e);
      SetPrev(n, e);
    }

    method SetFlags(e: Handle, high: bool, low: bool)
      requires Mirrored() && e in nodes
      modifies `nodes, e`inHigh, e`inLow
      ensures Mirrored() && nodes == Flag(old(nodes), e, high, low)
    {
      e.inHigh, e.inLow := high, low;
      nodes := Flag(nodes, e, high, low);
    }

    ghost method Redraw(q: Pools)
      requires Mirrored()
      modifies `order, `nb, `nl
      ensures Mirrored() && order == q.order && nb == q.nb && nl == q.nl
    {
      hide Mirrored;
      order, nb, nl := q.order, q.nb, q.nl;
    }

    /** LRU_Remove: the pool marks step back from a handle about to leave. */
    method RetractMarks(e: Handle)
      requires e.prev != null
      modifies `lowPri, `bottomPri
      ensures lowPri == StepBack(old(lowPri), e, e.prev) && bottomPri == StepBack(old(bottomPri), e, e.prev)
    {
      if lowPri == e {
        lowPri := e.prev;
      }
      if bottomPri == e {
        bottomPri := e.prev;
      }
    }

    /** LRU_Remove: the counters lose the handle's charge. */
    method Discount(e: Handle)
      requires lruUsage >= e.charge && (e.inHigh ==> highUsage >= e.charge)
          && (!e.inHigh && e.inLow ==> lowUsage >= e.charge)
      modifies `lruUsage, `highUsage, `lowUsage
      ensures lruUsage == old(lruUsage) - e.charge
      ensures highUsage == Less(old(highUsage), e.charge, e.inHigh)
          && lowUsage == Less(old(lowUsage), e.charge, !e.inHigh && e.inLow)
    {
      lruUsage := lruUsage - e.charge;
      if e.inHigh {
        highUsage := highUsage - e.charge;
      } else if e.inLow {
        lowUsage := lowUsage - e.charge;
      }
    }

    /** LRU_Remove. */
    method LruRemove(e: Handle, ghost k: nat)
      requires Mirrored() && ListOk(lru, P(), nodes) && k < |order| && e == order[k] && lruUsage >= e.charge
      modifies `lowPri, `bottomPri, `lruUsage, `highUsage, `lowUsage, `order, `nb, `nl, `nodes, nodes.Keys`next,
          nodes.Keys`prev
      ensures Mirrored() && Removed(lru, old(P()), old(nodes), k, P(), nodes) && lruUsage == old(lruUsage) - e.charge
    {
      hide Mirrored, ListOk, Unlinked, Without, Removed, StepBack, Less;
      RemovedOk(lru, P(), nodes, k);
      MirrorAt(e);
      ghost var q := RemovedAt(lru, P(), k, e.inHigh, e.inLow);
      RetractMarks(e);
      Unlink(e);
      Discount(e);
      Redraw(q);
      assert P() == q;
    }

    /** MaintainPoolSize: the last handle of the high-priority pool overflows to the low-priority pool. */
    method ShiftHigh()
      requires Mirrored() && ListOk(lru, P(), nodes) && highUsage > 0
      modifies `lowPri, `highUsage, `lowUsage, `nl, `nodes, nodes.Keys`inHigh, nodes.Keys`inLow
      ensures Mirrored() && ListOk(lru, P(), nodes) && OnlyFlags(nodes, old(nodes)) && nodes.Keys == old(nodes.Keys)
      ensures nl == old(nl) + 1 && nb + nl <= |order| && highUsage + order[nb + nl - 1].charge == old(highUsage)
    {
      hide Mirrored, ListOk, OnlyFlags, Flag;
      OverflowHighOk(lru, P(), nodes);
      MirrorAt(lowPri);
      ghost var q := OverflowHigh(P());
      lowPri := lowPri.next;
      OnlyFlagsStep(nodes, lowPri, false, true);
      SetFlags(lowPri, false, true);
      highUsage := highUsage - lowPri.charge;
      lowUsage := lowUsage + lowPri.charge;
      nl := nl + 1;
      assert P() == q;
    }

    /** MaintainPoolSize: the last handle of the low-priority pool overflows to the bottom-priority pool. */
    method ShiftLow()
      requires Mirrored() && ListOk(lru, P(), nodes) && lowUsage > 0
      modifies `bottomPri, `lowUsage, `nb, `nl, `nodes, nodes.Keys`inHigh, nodes.Keys`inLow
      ensures Mirrored() && ListOk(lru, P(), nodes) && OnlyFlags(nodes, old(nodes)) && nodes.Keys == old(nodes.Keys)
      ensures nl == old(nl) - 1 && nb == old(nb) + 1 <= |order| && lowUsage + order[nb - 1].charge == old(lowUsage)
    {
      hide Mirrored, ListOk, OnlyFlags, Flag;
      OverflowLowOk(lru, P(), nodes);
      MirrorAt(bottomPri);
      ghost var q := OverflowLow(P());
      bottomPri := bottomPri.next;
      OnlyFlagsStep(nodes, bottomPri, false, false);
      SetFlags(bottomPri, false, false);
      lowUsage := lowUsage - bottomPri.charge;
      nb, nl := nb + 1, nl - 1;
      assert P() == q;
    }

    /** MaintainPoolSize: overflowing handles move down a pool, without reaching the sentinel, and no more of
        them than have to: with the last one that moved, the pool would not fit. */
    method MaintainPoolSize()
      requires Mirrored() && ListOk(lru, P(), nodes)
      modifies `lowPri, `bottomPri, `highUsage, `lowUsage, `nb, `nl, `nodes, nodes.Keys`inHigh, nodes.Keys`inLow
      ensures Mirrored() && ListOk(lru, P(), nodes) && OnlyFlags(nodes, old(nodes)) && nodes.Keys == old(nodes.Keys)
      ensures highUsage <= highCap && lowUsage <= lowCap
      ensures old(nb) <= nb && old(nb) + old(nl) <= nb + nl <= |order|
      ensures nb + nl > old(nb) + old(nl) ==> highUsage + order[nb + nl - 1].charge > highCap
      ensures nb > old(nb) ==> lowUsage + order[nb - 1].charge > lowCap
      ensures old(highUsage) <= highCap ==> nb + nl == old(nb) + old(nl) && highUsage == old(highUsage)
      ensures old(highUsage) <= highCap && old(lowUsage) <= lowCap ==> nodes == old(nodes) && P() == old(P())
    {
      hide Mirrored, ListOk, OnlyFlags;
      OnlyFlagsRefl(nodes);
      ListRange(lru, P(), nodes);
      while highUsage > highCap
        invariant Mirrored() && ListOk(lru, P(), nodes) && OnlyFlags(nodes, old(nodes)) && nodes.Keys == old(nodes.Keys)
        invariant nb == old(nb) && nl >= old(nl) && nb + nl <= |order|
        invariant nl > old(nl) ==> highUsage + order[nb + nl - 1].charge > highCap && old(highUsage) > highCap
        invariant nl == old(nl) ==> P() == old(P()) && nodes == old(nodes)
        decreases |order| - nb - nl
      {
        ghost var mid := nodes;
        ShiftHigh();
        OnlyFlagsTrans(nodes, mid, old(nodes));
      }
      ghost var top, high, start := nb + nl, highUsage, lowUsage;
      while lowUsage > lowCap
        invariant Mirrored() && ListOk(lru, P(), nodes) && OnlyFlags(nodes, old(nodes))
            && nodes.Keys == old(nodes.Keys) && highUsage <= highCap
        invariant nb >= old(nb) && nb + nl == top && highUsage == high && (nb == old(nb) ==> lowUsage == start)
        invariant nb > old(nb) ==> lowUsage + order[nb - 1].charge > lowCap && start > lowCap
        invariant nb == old(nb) && top == old(nb) + old(nl) ==> P() == old(P()) && nodes == old(nodes)
        invariant top == old(nb) + old(nl) ==> start == old(lowUsage)
        decreases nl
      {
        ghost var mid := nodes;
        ShiftLow();
        OnlyFlagsTrans(nodes, mid, old(nodes));
      }
    }

    /** The pool LRU_Insert chooses. */
    function PoolOf(e: Handle): Priority
      reads `highRatio, `lowRatio, e`priority, e`hit
    {
      if highRatio > 0.0 && (e.priority.High? || e.hit) then High
      else if lowRatio > 0.0 && (e.priority.High? || e.priority.Low? || e.hit) then Low
      else Bottom
    }

    /** LRU_Insert: at the newest end of the list. */
    method EnterHigh(e: Handle)
      requires Mirrored() && ListOk(lru, P(), nodes) && e in nodes && e !in Ring(lru, order)
      modifies `lowPri, `bottomPri, `highUsage, `lowUsage, `order, `nb, `nl, `nodes
      modifies nodes.Keys`next, nodes.Keys`prev, nodes.Keys`inHigh, nodes.Keys`inLow
      ensures Mirrored() && Entered(lru, old(P()), old(nodes), High, e, P(), nodes)
    {
      hide Mirrored, ListOk, Flag, LinkedAfter, With, After, Rebooked;
      Entry(lru, P(), nodes);
      InsertOk(lru, P(), nodes, High, e);
      NewRing(lru, P(), nodes, High, e);
      ghost var q := InsertedAt(P(), High, e);
      MirrorAt(lru);
      LinkAfter(e, lru.prev, lru);
      SetFlags(e, true, false);
      highUsage := highUsage + e.charge;
      Redraw(q);
      assert P() == q;
    }

    /** LRU_Insert: at the newest end of the low-priority pool. */
    method EnterLow(e: Handle)
      requires Mirrored() && ListOk(lru, P(), nodes) && e in nodes && e !in Ring(lru, order)
      modifies `lowPri, `bottomPri, `highUsage, `lowUsage, `order, `nb, `nl, `nodes
      modifies nodes.Keys`next, nodes.Keys`prev, nodes.Keys`inHigh, nodes.Keys`inLow
      ensures Mirrored() && Entered(lru, old(P()), old(nodes), Low, e, P(), nodes)
    {
      hide Mirrored, ListOk, Flag, LinkedAfter, With, After, Rebooked;
      Entry(lru, P(), nodes);
      InsertOk(lru, P(), nodes, Low, e);
      NewRing(lru, P(), nodes, Low, e);
      ghost var q := InsertedAt(P(), Low, e);
      MirrorAt(lowPri);
      LinkAfter(e, lowPri, lowPri.next);
      SetFlags(e, false, true);
      lowUsage := lowUsage + e.charge;
      lowPri := e;
      Redraw(q);
      assert P() == q;
    }

    method MarkBottom(e: Handle)
      modifies `lowPri, `bottomPri
      ensures bottomPri == e && lowPri == if old(bottomPri) == old(lowPri) then e else old(lowPri)
    {
      if bottomPri == lowPri {
        lowPri := e;
      }
      bottomPri := e;
    }

    /** LRU_Insert: at the newest end of the bottom-priority pool. */
    method EnterBottom(e: Handle)
      requires Mirrored() && ListOk(lru, P(), nodes) && e in nodes && e !in Ring(lru, order)
      modifies `lowPri, `bottomPri, `highUsage, `lowUsage, `order, `nb, `nl, `nodes
      modifies nodes.Keys`next, nodes.Keys`prev, nodes.Keys`inHigh, nodes.Keys`inLow
      ensures Mirrored() && Entered(lru, old(P()), old(nodes), Bottom, e, P(), nodes)
    {
      hide Mirrored, ListOk, Flag, LinkedAfter, With, After, Rebooked;
      Entry(lru, P(), nodes);
      InsertOk(lru, P(), nodes, Bottom, e);
      NewRing(lru, P(), nodes, Bottom, e);
      ghost var q := InsertedAt(P(), Bottom, e);
      MirrorAt(bottomPri);
      LinkAfter(e, bottomPri, bottomPri.next);
      SetFlags(e, false, false);
      MarkBottom(e);
      Redraw(q);
      assert P() == q;
    }

    /** LRU_Insert with a positive high-priority pool ratio. */
    method PushHigh(e: Handle)
      requires Mirrored() && ListOk(lru, P(), nodes) && e in nodes && e !in Ring(lru, order)
      modifies `lowPri, `bottomPri, `highUsage, `lowUsage, `order, `nb, `nl, `nodes
      modifies nodes.Keys`next, nodes.Keys`prev, nodes.Keys`inHigh, nodes.Keys`inLow
      ensures Mirrored() && Pushed(lru, old(P()), old(nodes), High, e, P(), nodes) && highUsage <= highCap
          && lowUsage <= lowCap
    {
      hide Mirrored, ListOk, With, Rebooked, OnlyFlags, Ring;
      EnterHigh(e);
      ghost var mid := nodes;
      MaintainPoolSize();
      RebookedFlags(nodes, mid, old(nodes), Ring(lru, order));
    }

    method PushLow(e: Handle)
      requires Mirrored() && ListOk(lru, P(), nodes) && e in nodes && e !in Ring(lru, order)
      modifies `lowPri, `bottomPri, `highUsage, `lowUsage, `order, `nb, `nl, `nodes
      modifies nodes.Keys`next, nodes.Keys`prev, nodes.Keys`inHigh, nodes.Keys`inLow
      ensures Mirrored() && Pushed(lru, old(P()), old(nodes), Low, e, P(), nodes) && highUsage <= highCap
          && lowUsage <= lowCap
    {
      hide Mirrored, ListOk, With, Rebooked, OnlyFlags, Ring;
      EnterLow(e);
      ghost var mid := nodes;
      MaintainPoolSize();
      RebookedFlags(nodes, mid, old(nodes), Ring(lru, order));
    }

    /** LRU_Insert. */
    method LruInsert(e: Handle)
      requires Mirrored() && ListOk(lru, P(), nodes) && e in nodes && e !in Ring(lru, order)
      modifies `lowPri, `bottomPri, `lruUsage, `highUsage, `lowUsage, `order, `nb, `nl, `nodes
      modifies nodes.Keys`next, nodes.Keys`prev, nodes.Keys`inHigh, nodes.Keys`inLow
      ensures Mirrored() && Pushed(lru, old(P()), old(nodes), PoolOf(e), e, P(), nodes)
          && lruUsage == old(lruUsage) + e.charge
      ensures old(Bounded()) ==> Bounded()
      ensures !PoolOf(e).Bottom? ==> Bounded()
    {
      hide Mirrored, ListOk, With, Rebooked, OnlyFlags, Ring;
      if highRatio > 0.0 && (e.priority.High? || e.hit) {
        PushHigh(e);
      } else if lowRatio > 0.0 && (e.priority.High? || e.priority.Low? || e.hit) {
        PushLow(e);
      } else {
        EnterBottom(e);
      }
      lruUsage := lruUsage + e.charge;
    }

    /** Both pools are within their capacities. */
    ghost predicate Bounded()
      reads `highUsage, `lowUsage, `highCap, `lowCap
    {
      highUsage <= highCap && lowUsage <= lowCap
    }

    // -------------------------------------------------------------------------------------
    // The shard

    ghost function B(): Books
      reads `order, `nb, `nl, `lowPri, `bottomPri, `highUsage, `lowUsage, `pinned, `nodes, `usage, `lruUsage,
          table`contents
    {
      Books(P(), pinned, nodes, table.contents, usage, lruUsage)
    }

    /** What holds between any two steps of an operation: the handles, the table, the list and the sums. */
    ghost predicate Held()
      reads `order, `nb, `nl, `lowPri, `bottomPri, `highUsage, `lowUsage, `pinned, `nodes, `usage, `lruUsage, `freed
      reads table, table.list, table.links.Keys`nextHash
      reads nodes.Keys`next, nodes.Keys`prev, nodes.Keys`refs, nodes.Keys`inCache, nodes.Keys`inHigh, nodes.Keys`inLow
    {
      table.Valid() && Mirrored() && Sound(lru, B()) && Gone(freed, nodes)
    }

    lemma TableHandles()
      requires table.Valid() && Sound(lru, B())
      ensures table.links.Keys <= nodes.Keys
    {
      hide ListOk, ChargeSum;
      forall h | h in table.links ensures h in nodes {
        var k :| k in table.contents && table.contents[k] == h;
      }
    }

    /** A handle that is off the table and the list, and has no references, is no longer counted. */
    method Retire(e: Handle, ghost c: map<Key, Handle>, ghost u: nat)
      requires Mirrored() && e in nodes && usage >= e.charge && Gone(freed, nodes) && e.refs == 0 && e.next == null
          && e.prev == null
      requires Sound(lru, Books(P(), pinned, nodes - {e}, c, u, lruUsage))
      modifies `nodes, `usage, e`inCache
      ensures Mirrored() && Sound(lru, Books(P(), pinned, nodes, c, u, lruUsage)) && Gone(freed, nodes)
      ensures nodes.Keys == old(nodes.Keys) - {e} && Loose(e) && usage == old(usage) - e.charge
          && SameFlags(nodes, old(nodes))
    {
      hide Sound;
      e.inCache := false;
      usage := usage - e.charge;
      nodes := nodes - {e};
    }

    /** LRU_Remove of the handle at position `k`, which will either be dropped or get a reference; the
        table may already have changed from contents `c`, and usage_ from `u`. */
    method Take(e: Handle, ghost k: nat, ghost c: map<Key, Handle>, ghost u: nat)
      requires Mirrored() && Sound(lru, Books(P(), pinned, nodes, c, u, lruUsage)) && k < |order| && e == order[k]
      modifies `lowPri, `bottomPri, `lruUsage, `highUsage, `lowUsage, `order, `nb, `nl, `nodes, nodes.Keys`next,
          nodes.Keys`prev
      ensures Mirrored() && order == Without(old(order), k) && nodes.Keys == old(nodes.Keys) && e in nodes
          && e !in pinned
      ensures NodeOf(e) == nodes[e] && e.refs == 0 && e.next == null && e.prev == null && u >= e.charge
      ensures highUsage <= old(highUsage) && lowUsage <= old(lowUsage) && SameFlags(nodes, old(nodes))
      ensures Sound(lru, Books(P(), pinned, nodes - {e}, c - {e.key}, u - e.charge, lruUsage))
      ensures Sound(lru, Books(P(), pinned + [e], nodes[e := nodes[e].(refs := 1)], c, u, lruUsage))
    {
      hide Mirrored, ListOk, Sound, Without, Unlinked, ChargeSum, Removed, Unjoined, Joined, SameFlags;
      ghost var b := Books(P(), pinned, nodes, c, u, lruUsage);
      SoundList(lru, b);
      ListedCharge(lru, b, k);
      LruRemove(e, k);
      RemovedFlags(lru, b.p, b.nodes, k, P(), nodes);
      TakenSound(lru, b, k, P(), nodes);
      MirrorAt(e);
    }

    /** One turn of EvictFromLRU. */
    method EvictOldest() returns (e: Handle)
      requires Held() && order != []
      modifies `lowPri, `bottomPri, `usage, `lruUsage, `highUsage, `lowUsage, `order, `nb, `nl, `nodes
      modifies table`elems, table`chains, table`links, table`contents, table.list
      modifies nodes.Keys`next, nodes.Keys`prev, nodes.Keys`inCache, nodes.Keys`nextHash
      ensures Held() && e == old(order[0]) && order == old(order)[1..] && nodes.Keys == old(nodes.Keys) - {e}
          && e in old(nodes)
      ensures old(usage) >= e.charge && usage == old(usage) - e.charge
      ensures Loose(e) && SameFlags(nodes, old(nodes))
      ensures highUsage <= old(highUsage) && lowUsage <= old(lowUsage)
      ensures table.contents == old(table.contents) - {e.key} && table.list == old(table.list)
    {
      hide Mirrored, ListOk, Sound, HandleTable.Valid, Gone, Without, SameFlags;
      OldestIs();
      e := lru.next;
      ghost var was := nodes;
      TakeFirst(e);
      ghost var mid := nodes;
      var r := table.Remove(e.key);
      Retire(e, table.contents, usage - e.charge);
      SameFlagsTrans(nodes, mid, was);
    }

    /** LRU_Remove of the oldest handle. */
    method TakeFirst(e: Handle)
      requires Mirrored() && Sound(lru, B()) && Gone(freed, nodes) && order != [] && e == order[0]
      modifies `lowPri, `bottomPri, `lruUsage, `highUsage, `lowUsage, `order, `nb, `nl, `nodes, nodes.Keys`next,
          nodes.Keys`prev
      ensures Mirrored() && Gone(freed, nodes) && order == old(order)[1..] && nodes.Keys == old(nodes.Keys)
          && e in nodes
      ensures e.refs == 0 && e.next == null && e.prev == null && usage >= e.charge && SameFlags(nodes, old(nodes))
      ensures highUsage <= old(highUsage) && lowUsage <= old(lowUsage)
      ensures Sound(lru, Books(P(), pinned, nodes - {e}, table.contents - {e.key}, usage - e.charge, lruUsage))
    {
      hide Mirrored, ListOk, Sound, Gone, Without, SameFlags;
      WithoutFirst(order);
      ghost var was := nodes;
      Take(e, 0, table.contents, usage);
      GoneSame(freed, was, nodes);
    }

    lemma OldestIs()
      requires Held() && order != []
      ensures lru.next == order[0] && order[0] in nodes && table.links.Keys <= nodes.Keys
    {
      hide ListOk, HandleTable.Valid, Gone, ChargeSum;
      Oldest(lru, P(), nodes);
      MirrorAt(lru);
      TableHandles();
    }

    /** Nobody refers to the handle: neither a client, nor the table, nor the list. */
    ghost predicate Loose(e: Handle)
      reads e
    {
      e.refs == 0 && !e.inCache && e.next == null && e.prev == null
    }

    ghost predicate AllLoose(deleted: seq<Handle>)
      reads deleted
    {
      forall i | 0 <= i < |deleted| :: Loose(deleted[i])
    }

    /** Handles that can be freed: distinct, not referred to by anybody, not freed before. */
    ghost predicate Disposable(deleted: seq<Handle>)
      reads `freed, `nodes, deleted
    {
      AllLoose(deleted) && Apart(deleted, freed) && NoDup(deleted) && Outside(deleted, nodes)
    }

    /** Evicts from the old end of the list until the charge fits or the list is empty. */
    method EvictFromLru(charge: nat) returns (deleted: seq<Handle>)
      requires Held()
      modifies `lowPri, `bottomPri, `usage, `lruUsage, `highUsage, `lowUsage, `order, `nb, `nl, `nodes
      modifies table`elems, table`chains, table`links, table`contents, table.list
      modifies nodes.Keys`next, nodes.Keys`prev, nodes.Keys`inCache, nodes.Keys`nextHash
      ensures Held() && Disposable(deleted) && EvictedTo(old(order), old(usage), old(table.contents), deleted, order,
          usage, table.contents)
      ensures |deleted| == Evictions(old(order), old(usage), charge, capacity) && deleted <= old(order)
      ensures usage + charge <= capacity || order == []
      ensures nodes.Keys <= old(nodes.Keys) && table.list == old(table.list)
      ensures highUsage <= old(highUsage) && lowUsage <= old(lowUsage) && SameFlags(nodes, old(nodes))
    {
      hide Held, EvictedTo, Disposable, SameFlags;
      SameFlagsTrans(nodes, nodes, nodes);
      OrderedOnce();
      EvictedNone(order, usage, table.contents);
      deleted := [];
      NoneDeleted();
      while usage + charge > capacity && lru.next != lru
        invariant Held() && nodes.Keys <= old(nodes.Keys) && table.list == old(table.list) && Disposable(deleted)
        invariant EvictedTo(old(order), old(usage), old(table.contents), deleted, order, usage, table.contents)
        invariant Evictions(old(order), old(usage), charge, capacity) == |deleted| + Evictions(order, usage, charge,
            capacity)
        invariant highUsage <= old(highUsage) && lowUsage <= old(lowUsage) && SameFlags(nodes, old(nodes))
        decreases |order|
      {
        NotEmpty();
        ghost var mid := nodes;
        deleted := EvictInto(deleted, old(order), old(usage), old(table.contents));
        SameFlagsTrans(nodes, mid, old(nodes));
      }
      NotEmpty();
      EvictedFirst(old(order), old(usage), old(table.contents), deleted, order, usage, table.contents);
    }

    /** One turn of EvictFromLRU, with the handle added to those to be freed. */
    method EvictInto(deleted: seq<Handle>, ghost order0: seq<Handle>, ghost usage0: nat, ghost c0: map<Key, Handle>)
      returns (deleted': seq<Handle>)
      requires Held() && order != [] && Disposable(deleted)
          && EvictedTo(order0, usage0, c0, deleted, order, usage, table.contents)
      modifies `lowPri, `bottomPri, `usage, `lruUsage, `highUsage, `lowUsage, `order, `nb, `nl, `nodes
      modifies table`elems, table`chains, table`links, table`contents, table.list
      modifies nodes.Keys`next, nodes.Keys`prev, nodes.Keys`inCache, nodes.Keys`nextHash
      ensures Held() && Disposable(deleted') && EvictedTo(order0, usage0, c0, deleted', order, usage, table.contents)
      ensures nodes.Keys <= old(nodes.Keys) && table.list == old(table.list) && |deleted'| == |deleted| + 1
      ensures order == old(order)[1..] && old(usage) >= old(order)[0].charge
          && usage == old(usage) - old(order)[0].charge
      ensures highUsage <= old(highUsage) && lowUsage <= old(lowUsage) && SameFlags(nodes, old(nodes))
    {
      hide Held, EvictedTo, SameFlags;
      NotFreed();
      ghost var before := nodes;
      var e := EvictOldest();
      EvictedMore(order0, usage0, c0, deleted, old(order), old(usage), old(table.contents));
      OneMoreDeleted(deleted, e, before);
      deleted' := deleted + [e];
    }

    lemma NoneDeleted()
      ensures Disposable([])
    {
    }

    lemma OneMoreDeleted(deleted: seq<Handle>, e: Handle, before: Nodes)
      requires Disposable(deleted) && Loose(e) && e !in freed && e !in nodes && Outside(deleted, before) && e in before
      ensures Disposable(deleted + [e])
    {
    }

    lemma NotEmpty()
      requires Held()
      ensures lru.next == lru <==> order == []
    {
      hide ListOk, HandleTable.Valid, Gone, Membership;
      Entry(lru, P(), nodes);
      Oldest(lru, P(), nodes);
      OrderNoDup(lru, order);
      MirrorAt(lru);
    }

    lemma NotFreed()
      requires Held()
      ensures forall h | h in order :: h in nodes && h !in freed
    {
      hide ListOk, HandleTable.Valid;
    }

    /** Frees a handle; at most once, and never one that is still referred to. */
    method Free(e: Handle)
      requires Loose(e) && e !in freed && e !in nodes && Gone(freed, nodes)
      modifies `freed
      ensures freed == old(freed) + [e] && Gone(freed, nodes)
    {
      freed := freed + [e];
    }

    /** Frees the evicted handles, after the mutex is released. */
    method NotifyEvicted(deleted: seq<Handle>)
      requires Held() && Disposable(deleted)
      modifies `freed
      ensures Held() && freed == old(freed) + deleted
    {
      hide PoolCap, Held;
      for i := 0 to |deleted|
        invariant Held() && freed == old(freed) + deleted[..i]
      {
        assert deleted[i] in deleted;
        FreeNow(deleted[i]);
      }
    }

    method FreeNow(e: Handle)
      requires Held() && Loose(e) && e !in freed && e !in nodes
      modifies `freed
      ensures Held() && freed == old(freed) + [e]
    {
      hide Mirrored, Sound, HandleTable.Valid;
      Free(e);
    }

    // -------------------------------------------------------------------------------------
    // The operations

    ghost predicate Configured()
      reads `capacity, `highRatio, `lowRatio, `highCap, `lowCap
    {
      highRatio >= 0.0 && lowRatio >= 0.0 && highCap == PoolCap(capacity, highRatio)
          && lowCap == PoolCap(capacity, lowRatio)
    }

    /** What holds between operations; in particular, nothing is evictable while usage_ exceeds capacity_. */
    ghost predicate Valid()
      reads this, table, table.list, table.links.Keys`nextHash
      reads nodes.Keys`next, nodes.Keys`prev, nodes.Keys`refs, nodes.Keys`inCache, nodes.Keys`inHigh, nodes.Keys`inLow
    {
      Held() && Configured() && (usage > capacity ==> order == [])
    }

    /** EvictFromLRU followed by NotifyEvicted. */
    method MakeRoom(charge: nat) returns (ghost n: nat)
      requires Held()
      modifies `lowPri, `bottomPri, `usage, `lruUsage, `highUsage, `lowUsage, `order, `nb, `nl, `nodes, `freed
      modifies table`elems, table`chains, table`links, table`contents, table.list
      modifies nodes.Keys`next, nodes.Keys`prev, nodes.Keys`inCache, nodes.Keys`nextHash
      ensures Held() && n == Evictions(old(order), old(usage), charge, capacity) <= |old(order)|
      ensures order == old(order)[n..] && freed == old(freed) + old(order)[..n]
      ensures EvictedTo(old(order), old(usage), old(table.contents), old(order)[..n], order, usage, table.contents)
      ensures usage + charge <= capacity || order == []
      ensures nodes.Keys <= old(nodes.Keys) && table.list == old(table.list)
      ensures highUsage <= old(highUsage) && lowUsage <= old(lowUsage)
    {
      hide PoolCap, Held, EvictedTo;
      OrderedOnce();
      var deleted := EvictFromLru(charge);
      n := |deleted|;
      EvictedFirst(old(order), old(usage), old(table.contents), deleted, order, usage, table.contents);
      assert deleted == old(order)[..n];
      NotifyEvicted(deleted);
    }

    lemma OrderedOnce()
      requires Held()
      ensures NoDup(order) && forall h | h in order :: h in nodes
    {
      hide HandleTable.Valid, ChargeSum, ListOk;
      Entry(lru, P(), nodes);
      OrderNoDup(lru, order);
    }

    method SetCapacity(capacity: nat) returns (ghost n: nat)
      requires Valid()
      modifies `capacity, `highCap, `lowCap
      modifies `lowPri, `bottomPri, `usage, `lruUsage, `highUsage, `lowUsage, `order, `nb, `nl, `nodes, `freed
      modifies table`elems, table`chains, table`links, table`contents, table.list
      modifies nodes.Keys`next, nodes.Keys`prev, nodes.Keys`inCache, nodes.Keys`nextHash
      ensures Valid() && this.capacity == capacity
      ensures n == Evictions(old(order), old(usage), 0, capacity) <= |old(order)|
      ensures order == old(order)[n..] && pinned == old(pinned) && freed == old(freed) + old(order)[..n]
      ensures EvictedTo(old(order), old(usage), old(table.contents), old(order)[..n], order, usage, table.contents)
    {
      hide PoolCap, Held, EvictedTo;
      this.capacity := capacity;
      highCap, lowCap := PoolCap(capacity, highRatio), PoolCap(capacity, lowRatio);
      n := MakeRoom(0);
    }

    method SetRefs(e: Handle, refs: nat)
      requires Mirrored() && e in nodes
      modifies `nodes, e`refs
      ensures Mirrored() && e.refs == refs && nodes == old(nodes)[e := old(nodes)[e].(refs := refs)]
    {
      e.refs := refs;
      nodes := nodes[e := nodes[e].(refs := refs)];
    }

    /** A handle of the table is on the list without references, or pinned with some. */
    lemma Tracked(e: Handle)
      requires Held() && InTable(e, table.contents)
      ensures e in nodes && NodeOf(e) == nodes[e] && e.inCache && e != lru
      ensures if e.refs == 0 then e in order else e in pinned
    {
      hide HandleTable.Valid, ChargeSum, ListOk;
      assert Keyed(table.contents, nodes);
      assert Status(e, lru, order, pinned, nodes[e], table.contents);
      MirrorAt(e);
    }

    lemma TrackedPinned(e: Handle)
      requires Held() && e in pinned
      ensures e in nodes && NodeOf(e) == nodes[e] && e.refs > 0 && e.next == null && e.prev == null
      ensures e.inCache <==> InTable(e, table.contents)
    {
      hide HandleTable.Valid, ChargeSum, ListOk;
      assert Known(pinned, nodes);
      assert Status(e, lru, order, pinned, nodes[e], table.contents);
      MirrorAt(e);
    }

    /** The first reference to a listed handle. */
    method PinListed(e: Handle, ghost k: nat)
      requires Held() && k < |order| && e == order[k]
      modifies `lowPri, `bottomPri, `lruUsage, `highUsage, `lowUsage, `order, `nb, `nl, `nodes, `pinned
      modifies nodes.Keys`next, nodes.Keys`prev, e`refs
      ensures Held() && order == Without(old(order), k) && pinned == old(pinned) + [e] && e.refs == 1
      ensures highUsage <= old(highUsage) && lowUsage <= old(lowUsage) && nodes.Keys == old(nodes.Keys)
    {
      hide Mirrored, ListOk, Sound, HandleTable.Valid, Gone, Without, SameFlags;
      ghost var was := nodes;
      Take(e, k, table.contents, usage);
      GoneSame(freed, was, nodes);
      Adopt(e);
    }

    method Adopt(e: Handle)
      requires Mirrored() && e in nodes && Gone(freed, nodes)
      requires Sound(lru, Books(P(), pinned + [e], nodes[e := nodes[e].(refs := 1)], table.contents, usage, lruUsage))
      modifies `nodes, `pinned, e`refs
      ensures Mirrored() && Sound(lru, B()) && Gone(freed, nodes)
      ensures e.refs == 1 && pinned == old(pinned) + [e] && nodes.Keys == old(nodes.Keys)
    {
      hide Sound;
      e.refs := 1;
      nodes := nodes[e := nodes[e].(refs := 1)];
      pinned := pinned + [e];
    }

    /** One more reference to a handle that has some. */
    method Ref(e: Handle)
      requires Held() && e in pinned
      modifies `nodes, e`refs
      ensures Held() && e.refs == old(e.refs) + 1 && nodes.Keys == old(nodes.Keys)
    {
      hide Mirrored, ListOk, Sound, HandleTable.Valid, Gone;
      TrackedPinned(e);
      ghost var b := B();
      ReferencedSound(lru, b, e, e.refs + 1);
      SetRefs(e, e.refs + 1);
      GoneSame(freed, b.nodes, nodes);
    }

    /** A reference to a handle of the table; only an unreferenced one is on the list, and leaves it. */
    method Acquire(e: Handle) returns (ghost k: nat)
      requires Held() && InTable(e, table.contents)
      modifies `lowPri, `bottomPri, `lruUsage, `highUsage, `lowUsage, `order, `nb, `nl, `nodes, `pinned
      modifies nodes.Keys`next, nodes.Keys`prev, e`refs
      ensures Held() && e in pinned && e.refs == old(e.refs) + 1
      ensures if old(e.refs) == 0 then PinnedFrom(old(order), old(pinned), k, e, order, pinned)
          else order == old(order) && pinned == old(pinned)
      ensures old(Bounded()) ==> Bounded()
    {
      hide PoolCap, Held, Without;
      Tracked(e);
      k := 0;
      if e.refs == 0 {
        k :| k < |order| && order[k] == e;
        PinListed(e, k);
      } else {
        Ref(e);
      }
    }

    /** Finds the key's handle and takes a reference to it. */
    method Lookup(key: Key) returns (e: Handle?, ghost k: nat)
      requires Valid()
      modifies `lowPri, `bottomPri, `lruUsage, `highUsage, `lowUsage, `order, `nb, `nl, `nodes, `pinned
      modifies nodes.Keys`next, nodes.Keys`prev, nodes.Keys`refs, nodes.Keys`hit
      ensures Valid() && e == (if key in table.contents then table.contents[key] else null)
      ensures e != null ==> e in pinned && e.refs == old(e.refs) + 1 && e.hit
      ensures forall h | h in old(nodes) && h != e :: h.refs == old(h.refs) && h.hit == old(h.hit)
      ensures e != null && old(e.refs) == 0 ==> PinnedFrom(old(order), old(pinned), k, e, order, pinned)
      ensures e == null || old(e.refs) > 0 ==> order == old(order) && pinned == old(pinned)
      ensures old(Bounded()) ==> Bounded()
    {
      hide PoolCap, Held, PinnedFrom;
      k := 0;
      e := LookupHandle(key);
      if e != null {
        Tracked(e);
        PinnedShorter(order, pinned, e);
        k := Acquire(e);
        e.hit := true;
      }
    }

    method LookupHandle(key: Key) returns (e: Handle?)
      requires Held()
      ensures e == if key in table.contents then table.contents[key] else null
      ensures e != null ==> InTable(e, table.contents)
    {
      e := table.Lookup(key);
      assert Keyed(table.contents, nodes);
    }

    /** One reference less, but not the last. */
    method Unref(e: Handle)
      requires Held() && e in pinned && e.refs > 1
      modifies `nodes, e`refs
      ensures Held() && e.refs == old(e.refs) - 1 && nodes.Keys == old(nodes.Keys)
    {
      hide Mirrored, ListOk, Sound, HandleTable.Valid, Gone;
      TrackedPinned(e);
      ghost var b := B();
      ReferencedSound(lru, b, e, e.refs - 1);
      SetRefs(e, e.refs - 1);
      GoneSame(freed, b.nodes, nodes);
    }

    ghost method Unpin(j: nat)
      requires Mirrored() && j < |pinned| && table.Valid() && Gone(freed, nodes)
      requires Sound(lru, Books(P(), Without(pinned, j), nodes, table.contents, usage, lruUsage))
      modifies `pinned
      ensures Held() && pinned == Without(old(pinned), j)
    {
      hide Mirrored, Sound, Without, HandleTable.Valid, Gone;
      pinned := Without(pinned, j);
    }

    /** The last reference is given up: LRU_Insert of the handle. */
    method Relist(e: Handle, ghost j: nat)
      requires Mirrored() && Sound(lru, B()) && Gone(freed, nodes) && j < |pinned| && e == pinned[j] && e in nodes
          && nodes[e].inCache
      modifies `lowPri, `bottomPri, `lruUsage, `highUsage, `lowUsage, `order, `nb, `nl, `nodes
      modifies nodes.Keys`next, nodes.Keys`prev, nodes.Keys`inHigh, nodes.Keys`inLow, e`refs
      ensures Mirrored() && Gone(freed, nodes) && e.refs == 0 && nodes.Keys == old(nodes.Keys)
      ensures Sound(lru, Books(P(), Without(pinned, j), nodes, table.contents, usage, lruUsage))
      ensures ReturnedTo(old(P()), pinned, PoolOf(e), e, j, order, Without(pinned, j))
      ensures old(Bounded()) ==> Bounded()
    {
      hide Mirrored, ListOk, Sound, Gone, Without, With, Pushed, ReturnedTo, PoolOf, Bounded;
      ghost var b := B();
      ReturnedReady(lru, b, j);
      SetRefs(e, 0);
      LruInsert(e);
      GivenBack(lru, b, j, PoolOf(e), P(), nodes);
      GoneSame(freed, b.nodes, nodes);
    }

    /** The last reference is given up, and the handle goes back to the list. */
    method GiveBack(e: Handle, ghost j: nat)
      requires Held() && j < |pinned| && e == pinned[j] && e.inCache
      modifies `lowPri, `bottomPri, `lruUsage, `highUsage, `lowUsage, `order, `nb, `nl, `nodes, `pinned
      modifies nodes.Keys`next, nodes.Keys`prev, nodes.Keys`inHigh, nodes.Keys`inLow, e`refs
      ensures Held() && e.refs == 0 && nodes.Keys == old(nodes.Keys)
      ensures ReturnedTo(old(P()), old(pinned), PoolOf(e), e, j, order, pinned)
      ensures old(Bounded()) ==> Bounded()
    {
      hide Mirrored, ListOk, Sound, HandleTable.Valid, Gone, Without, With, ReturnedTo;
      TrackedPinned(e);
      Relist(e, j);
      Unpin(j);
    }

    /** A handle that just lost its last reference is no longer counted. */
    method Discharge(e: Handle, ghost j: nat)
      requires Mirrored() && e in nodes && usage >= e.charge && Gone(freed, nodes) && j < |pinned| && table.Valid()
      requires e.refs == 0 && e.next == null && e.prev == null
      requires Sound(lru, Books(P(), Without(pinned, j), nodes - {e}, table.contents, usage - e.charge, lruUsage))
      modifies `nodes, `usage, `pinned, e`inCache
      ensures Held() && Loose(e)
      ensures nodes.Keys == old(nodes.Keys) - {e} && usage == old(usage) - e.charge && pinned == Without(old(pinned), j)
    {
      hide Sound, HandleTable.Valid, Without;
      e.inCache := false;
      usage := usage - e.charge;
      nodes := nodes - {e};
      pinned := Without(pinned, j);
    }

    /** A handle leaves the table if it is there. */
    method Unhash(e: Handle)
      requires table.Valid()
      modifies table`elems, table`chains, table`links, table`contents, table.list
      modifies table.links.Keys`nextHash
      ensures table.Valid() && table.contents == (if e.inCache then old(table.contents) - {e.key}
          else old(table.contents))
      ensures table.list == old(table.list)
    {
      hide HandleTable.Valid;
      if e.inCache {
        var r := table.Remove(e.key);
      }
    }

    /** The last reference is given up, and the handle is freed. */
    method FreePinned(e: Handle, ghost j: nat)
      requires Held() && j < |pinned| && e == pinned[j]
      modifies `usage, `nodes, `pinned, `freed
      modifies table`elems, table`chains, table`links, table`contents, table.list
      modifies nodes.Keys`inCache, nodes.Keys`nextHash, e`refs
      ensures Held() && freed == old(freed) + [e] && pinned == Without(old(pinned), j) && e.refs == 0
      ensures usage == old(usage) - e.charge && nodes.Keys == old(nodes.Keys) - {e}
      ensures table.contents == (if old(e.inCache) then old(table.contents) - {e.key} else old(table.contents))
      ensures table.list == old(table.list)
    {
      hide Mirrored, ListOk, Sound, HandleTable.Valid, Gone, Without;
      ghost var b := B();
      TrackedPinned(e);
      TableHandles();
      FreedBooks(lru, b, freed, j);
      SetRefs(e, 0);
      Unhash(e);
      GoneSame(freed, b.nodes, nodes);
      Discharge(e, j);
      FreeNow(e);
    }

    /** Release of the last reference: the handle goes back to the list if it may stay, else it is freed. */
    method ReleaseLast(e: Handle, eraseIfLast: bool, ghost j: nat) returns (mustFree: bool)
      requires Valid() && j < |pinned| && e == pinned[j]
      modifies `lowPri, `bottomPri, `usage, `lruUsage, `highUsage, `lowUsage, `order, `nb, `nl, `nodes, `pinned, `freed
      modifies table`elems, table`chains, table`links, table`contents, table.list
      modifies nodes.Keys`next, nodes.Keys`prev, nodes.Keys`inCache, nodes.Keys`nextHash, nodes.Keys`inHigh,
          nodes.Keys`inLow, e`refs
      ensures Valid() && (old(Bounded()) ==> Bounded())
      ensures e.refs == 0 && (mustFree <==> !old(e.inCache) || old(usage) > capacity || eraseIfLast)
      ensures !mustFree ==> ReturnedTo(old(P()), old(pinned), PoolOf(e), e, j, order, pinned) && freed == old(freed)
      ensures table.contents == (if mustFree && old(e.inCache) then old(table.contents) - {e.key}
          else old(table.contents))
      ensures mustFree ==> freed == old(freed) + [e] && pinned == Without(old(pinned), j) && order == old(order)
    {
      hide PoolCap, Held, Without, ReturnedTo;
      TrackedPinned(e);
      if e.inCache && !(usage > capacity || eraseIfLast) {
        GiveBack(e, j);
        mustFree := false;
      } else {
        NotEmpty();
        // only a full cache, in which nothing is evictable, gives up an entry that nobody asked to erase
        assert !e.inCache || lru.next == lru || eraseIfLast;
        FreePinned(e, j);
        mustFree := true;
      }
    }

    /** Gives up a reference; null is allowed and ignored. */
    method Release(e: Handle?, eraseIfLast: bool) returns (mustFree: bool, ghost j: nat)
      requires Valid() && (e != null ==> e in pinned)
      modifies `lowPri, `bottomPri, `usage, `lruUsage, `highUsage, `lowUsage, `order, `nb, `nl, `nodes, `pinned, `freed
      modifies table`elems, table`chains, table`links, table`contents, table.list
      modifies nodes.Keys`next, nodes.Keys`prev, nodes.Keys`inCache, nodes.Keys`nextHash, nodes.Keys`refs,
          nodes.Keys`inHigh, nodes.Keys`inLow
      ensures Valid() && (old(Bounded()) ==> Bounded())
      ensures mustFree <==> e != null && old(e.refs) == 1 && (!old(e.inCache) || old(usage) > capacity || eraseIfLast)
      ensures table.contents == (if mustFree && old(e.inCache) then old(table.contents) - {e.key}
          else old(table.contents))
      ensures e != null ==> e.refs == old(e.refs) - 1
      ensures forall h | h in old(nodes) && h != e :: h.refs == old(h.refs)
      ensures e == null || old(e.refs) > 1 ==> order == old(order) && pinned == old(pinned) && freed == old(freed)
      ensures e != null && old(e.refs) == 1 && !mustFree ==>
          ReturnedTo(old(P()), old(pinned), PoolOf(e), e, j, order, pinned) && freed == old(freed)
      ensures mustFree ==>
          freed == old(freed) + [e] && j < |old(pinned)| && pinned == Without(old(pinned), j) && order == old(order)
    {
      hide PoolCap, Held, Without, ReturnedTo;
      j := 0;
      if e == null {
        return false, 0;
      }
      TrackedPinned(e);
      if e.refs > 1 {
        Unref(e);
        mustFree := false;
      } else {
        j :| j < |pinned| && pinned[j] == e;
        mustFree := ReleaseLast(e, eraseIfLast, j);
      }
    }

    method SetOut(e: Handle)
      requires Mirrored() && e in nodes
      modifies `nodes, e`inCache
      ensures Mirrored() && !e.inCache && nodes == old(nodes)[e := old(nodes)[e].(inCache := false)]
    {
      e.inCache := false;
      nodes := nodes[e := nodes[e].(inCache := false)];
    }

    /** An unreferenced handle that the table no longer holds leaves the list and is dropped. */
    method ExpelListed(e: Handle, ghost k: nat, ghost c: map<Key, Handle>, ghost u: nat)
      requires Mirrored() && Gone(freed, nodes) && Sound(lru, Books(P(), pinned, nodes, c, u, lruUsage)) && usage >= u
      requires k < |order| && order[k] == e
      modifies `lowPri, `bottomPri, `usage, `lruUsage, `highUsage, `lowUsage, `order, `nb, `nl, `nodes
      modifies nodes.Keys`next, nodes.Keys`prev, e`inCache
      ensures u >= e.charge && usage == old(usage) - e.charge && order == Without(old(order), k) && Loose(e)
      ensures Mirrored() && Gone(freed, nodes) && Sound(lru,
          Books(P(), pinned, nodes, c - {e.key}, u - e.charge, lruUsage))
      ensures nodes.Keys == old(nodes.Keys) - {e} && (old(Bounded()) ==> Bounded()) && SameFlags(nodes, old(nodes))
    {
      hide Mirrored, ListOk, Sound, Gone, Without, SameFlags;
      ghost var was := nodes;
      Take(e, k, c, u);
      GoneSame(freed, was, nodes);
      ghost var mid := nodes;
      Retire(e, c - {e.key}, u - e.charge);
      SameFlagsTrans(nodes, mid, was);
    }

    /** A referenced handle that the table no longer holds will be freed with its last reference. */
    method ExpelPinned(e: Handle, ghost c: map<Key, Handle>, ghost u: nat)
      requires Mirrored() && Gone(freed, nodes) && Sound(lru, Books(P(), pinned, nodes, c, u, lruUsage))
          && InTable(e, c) && e in pinned
      modifies `nodes, nodes.Keys`inCache
      ensures Mirrored() && Gone(freed, nodes) && Sound(lru, Books(P(), pinned, nodes, c - {e.key}, u, lruUsage))
      ensures nodes.Keys == old(nodes.Keys) && SameFlags(nodes, old(nodes))
    {
      hide Mirrored, ListOk, Sound, Gone;
      ghost var b := Books(P(), pinned, nodes, c, u, lruUsage);
      UnhashedSound(lru, b, e);
      SetOut(e);
      GoneSame(freed, b.nodes, nodes);
    }

    /** A handle that the table no longer holds: dropped if nobody refers to it. */
    method Expel(e: Handle, ghost c: map<Key, Handle>, ghost u: nat) returns (dropped: bool, ghost k: nat)
      requires Mirrored() && Gone(freed, nodes) && Sound(lru, Books(P(), pinned, nodes, c, u, lruUsage))
          && InTable(e, c) && usage >= u
      modifies `lowPri, `bottomPri, `usage, `lruUsage, `highUsage, `lowUsage, `order, `nb, `nl, `nodes
      modifies nodes.Keys`next, nodes.Keys`prev, nodes.Keys`inCache
      ensures (dropped <==> e.refs == 0) && (dropped <==> e in old(order))
      ensures u >= Cost(e, dropped) && usage == old(usage) - Cost(e, dropped)
      ensures Mirrored() && Gone(freed, nodes) && Sound(lru,
          Books(P(), pinned, nodes, c - {e.key}, u - Cost(e, dropped), lruUsage))
      ensures dropped ==>
          k < |old(order)| && old(order)[k] == e && order == Without(old(order), k) && Loose(e) && e !in freed
      ensures !dropped ==> order == old(order) && e in pinned
      ensures nodes.Keys == old(nodes.Keys) - (if dropped then {e} else {}) && (old(Bounded()) ==> Bounded())
          && SameFlags(nodes, old(nodes))
    {
      hide Mirrored, ListOk, Sound, Gone, Without, SameFlags;
      WhereListed(lru, Books(P(), pinned, nodes, c, u, lruUsage), freed, e);
      MirrorAt(e);
      k, dropped := 0, e.refs == 0;
      if dropped {
        k :| k < |order| && order[k] == e;
        ExpelListed(e, k, c, u);
      } else {
        ExpelPinned(e, c, u);
      }
    }

    lemma KeyedAt(key: Key)
      requires Held()
      ensures key in table.contents ==> table.contents[key].key == key && table.contents[key] in nodes
    {
      hide HandleTable.Valid, ListOk, ChargeSum;
      assert Keyed(table.contents, nodes);
    }

    /** Erase, after the table gave up the handle. */
    method EraseFound(e: Handle, ghost c: map<Key, Handle>)
      requires Mirrored() && Gone(freed, nodes) && Sound(lru, Books(P(), pinned, nodes, c, usage, lruUsage))
          && InTable(e, c)
      requires table.Valid() && table.contents == c - {e.key} && (usage > capacity ==> order == [])
      modifies `lowPri, `bottomPri, `usage, `lruUsage, `highUsage, `lowUsage, `order, `nb, `nl, `nodes, `freed
      modifies nodes.Keys`next, nodes.Keys`prev, nodes.Keys`inCache
      ensures Held() && (usage > capacity ==> order == []) && (old(Bounded()) ==> Bounded())
      ensures e.refs == 0 ==>
          freed == old(freed) + [e] && exists k | 0 <= k < |old(order)| ::
          old(order)[k] == e && order == Without(old(order), k)
      ensures e.refs > 0 ==> freed == old(freed) && order == old(order) && usage == old(usage)
    {
      hide Mirrored, ListOk, Sound, HandleTable.Valid, Gone, Without;
      ghost var k;
      var dropped;
      dropped, k := Expel(e, c, usage);
      if dropped {
        Free(e);
      }
    }

    /** Takes the key's handle out of the table; it is freed now or with its last reference. */
    method Erase(key: Key) returns (ghost e: Handle?)
      requires Valid()
      modifies `lowPri, `bottomPri, `usage, `lruUsage, `highUsage, `lowUsage, `order, `nb, `nl, `nodes, `freed
      modifies table`elems, table`chains, table`links, table`contents, table.list
      modifies nodes.Keys`next, nodes.Keys`prev, nodes.Keys`inCache, nodes.Keys`nextHash
      ensures Valid() && (old(Bounded()) ==> Bounded()) && pinned == old(pinned)
      ensures table.contents == old(table.contents) - {key}
      ensures e == if key in old(table.contents) then old(table.contents)[key] else null
      ensures e != null && old(e.refs) == 0 ==>
          freed == old(freed) + [e] && exists k | 0 <= k < |old(order)| ::
          old(order)[k] == e && order == Without(old(order), k)
      ensures e == null || old(e.refs) > 0 ==> freed == old(freed) && order == old(order) && usage == old(usage)
    {
      hide Mirrored, ListOk, Sound, HandleTable.Valid, Gone, Without;
      TableHandles();
      ghost var c := table.contents;
      KeyedAt(key);
      var r := table.Remove(key);
      e := r;
      if r != null {
        EraseFound(r, c);
      } else {
        assert c - {key} == c;
      }
    }

    /** A new handle, already in the table, gets its first reference. */
    method AddPinned(h: Handle, ghost c: map<Key, Handle>, ghost u: nat)
      requires Mirrored() && Gone(freed, nodes) && Sound(lru, Books(P(), pinned, nodes, c, u, lruUsage))
          && table.Valid()
      requires h !in nodes && h !in freed && h.next == null && h.prev == null && usage == u + h.charge
      requires table.contents == (if h.inCache then c[h.key := h] else c) && (h.inCache ==> h.key !in c)
      modifies `nodes, `pinned, h`refs
      ensures Held() && h.refs == 1 && pinned == old(pinned) + [h] && nodes.Keys == old(nodes.Keys) + {h}
    {
      hide Sound, HandleTable.Valid, ListOk, Mirrored, Gone;
      MarkPinned(h);
      AddedSound(lru, Books(P(), pinned, nodes, c, u, lruUsage), h, NodeOf(h));
      GoneOneMore(freed, nodes, h, NodeOf(h));
      AddNode(h);
      pinned := pinned + [h];
    }

    method MarkPinned(h: Handle)
      requires Mirrored() && h !in nodes
      modifies h`refs
      ensures Mirrored() && h.refs == 1
    {
      h.refs := 1;
    }

    method AddNode(h: Handle)
      requires Mirrored() && h !in nodes
      modifies `nodes
      ensures Mirrored() && nodes == old(nodes)[h := NodeOf(h)]
    {
      nodes := nodes[h := NodeOf(h)];
    }

    /** A new handle, already in the table, goes to the list. */
    method AddListed(h: Handle, ghost c: map<Key, Handle>, ghost u: nat)
      requires Mirrored() && Gone(freed, nodes) && Sound(lru, Books(P(), pinned, nodes, c, u, lruUsage))
      requires h !in nodes && h !in freed && h.inCache && h.refs == 0 && usage == u + h.charge
      requires table.contents == c[h.key := h] && h.key !in c
      modifies `lowPri, `bottomPri, `lruUsage, `highUsage, `lowUsage, `order, `nb, `nl, `nodes
      modifies nodes.Keys`next, nodes.Keys`prev, nodes.Keys`inHigh, nodes.Keys`inLow, h`next, h`prev, h`inHigh, h`inLow
      ensures Mirrored() && Sound(lru, B()) && Gone(freed, nodes)
      ensures nodes.Keys == old(nodes.Keys) + {h} && (old(Bounded()) ==> Bounded())
      ensures ListedAt(old(P()), PoolOf(h), h, order)
    {
      hide Mirrored, ListOk, Sound, HandleTable.Valid, Gone, Pushed, ListedAt;
      ghost var b := Books(P(), pinned, nodes, c, u, lruUsage);
      ghost var node := NodeOf(h);
      AddedReady(lru, b, h, node);
      AddNode(h);
      LruInsert(h);
      ListedNew(lru, b, freed, h, node, PoolOf(h), P(), nodes);
    }

    /** Insert, when there is room: the table takes the new handle, and gives up one with the same key,
        which is dropped from the list if it is there. */
    method Replace(h: Handle)
      returns (replaced: Handle?, dropped: bool, ghost k: nat, ghost c: map<Key, Handle>, ghost u: nat)
      requires Held() && h !in nodes && h !in freed && Fresh(h)
      modifies `lowPri, `bottomPri, `usage, `lruUsage, `highUsage, `lowUsage, `order, `nb, `nl, `nodes
      modifies table, table.list
      modifies nodes.Keys`next, nodes.Keys`prev, nodes.Keys`inCache, nodes.Keys`nextHash, h`nextHash
      ensures Mirrored() && Gone(freed, nodes) && Sound(lru, Books(P(), pinned, nodes, c, u, lruUsage)) && table.Valid()
      ensures table.contents == old(table.contents)[h.key := h] == c[h.key := h] && h.key !in c
      ensures usage == u + h.charge && u <= old(usage)
      ensures replaced == if h.key in old(table.contents) then old(table.contents)[h.key] else null
      ensures dropped <==> replaced != null && replaced in old(order)
      ensures dropped ==> Loose(replaced) && replaced !in nodes && replaced !in freed && replaced in old(nodes)
      ensures Shortened(old(order), replaced, dropped, k, order) && SameFlags(nodes, old(nodes))
      ensures nodes.Keys <= old(nodes.Keys) && (old(Bounded()) ==> Bounded())
          && (table.list == old(table.list) || fresh(table.list))
    {
      hide Mirrored, ListOk, Sound, HandleTable.Valid, Gone, Without, SameFlags;
      TableHandles();
      KeyedAt(h.key);
      NotThere(h);
      c, u, dropped, k := table.contents, usage, false, 0;
      replaced := table.Insert(h);
      usage := usage + h.charge;
      SameFlagsTrans(nodes, nodes, nodes);
      if replaced != null {
        dropped, k := Expel(replaced, c, u);
        c, u := c - {h.key}, u - Cost(replaced, dropped);
      }
    }

    lemma NotThere(h: Handle)
      requires Held() && h !in nodes
      ensures h !in table.contents.Values
    {
      hide HandleTable.Valid, ListOk, ChargeSum;
      forall x | x in table.contents.Values ensures x in nodes {
        var k :| k in table.contents && table.contents[k] == x;
        assert Keyed(table.contents, nodes);
      }
    }

    /** A handle as Insert has just made it. */
    ghost predicate Fresh(h: Handle)
      reads h
    {
      h.inCache && h.refs == 0 && h.next == null && h.prev == null
    }

    /** Insert, when there is room. */
    method Enter(h: Handle, want: bool) returns (replaced: Handle?, dropped: bool, ghost k: nat, ghost i: nat)
      requires Held() && h !in nodes && h !in freed && Fresh(h)
      requires usage + h.charge <= capacity || (order == [] && want)
      modifies `lowPri, `bottomPri, `usage, `lruUsage, `highUsage, `lowUsage, `order, `nb, `nl, `nodes, `pinned
      modifies table, table.list
      modifies nodes.Keys`next, nodes.Keys`prev, nodes.Keys`inCache, nodes.Keys`nextHash, nodes.Keys`inHigh,
          nodes.Keys`inLow, h`next, h`prev, h`inCache, h`nextHash, h`inHigh, h`inLow, h`refs
      ensures Held() && (usage > capacity ==> order == []) && (old(Bounded()) ==> Bounded())
          && nodes.Keys <= old(nodes.Keys) + {h}
      ensures table.contents == old(table.contents)[h.key := h]
      ensures replaced == if h.key in old(table.contents) then old(table.contents)[h.key] else null
      ensures dropped <==> replaced != null && replaced in old(order)
      ensures dropped ==> Loose(replaced) && replaced !in nodes && replaced !in freed && replaced in old(nodes)
      ensures Seated(want, old(order), old(nodes), old(pinned), replaced, dropped, k, i, h, h.refs, PoolOf(h), order,
          pinned)
    {
      hide PoolCap, Held, Mirrored, ListOk, Sound, HandleTable.Valid, Gone, NewestAt, SameFlags;
      ghost var c, u;
      replaced, dropped, k, c, u := Replace(h);
      ghost var order1, nodes1 := order, nodes;
      i := Seat(h, want, c, u);
      NewestKept(order1, i, PoolOf(h), nodes1, old(nodes));
      if dropped {
        // the new handle is another one
        assert replaced != h;
      }
    }

    /** A new handle in the table goes to the caller, with a reference, or to the list. */
    method Seat(h: Handle, want: bool, ghost c: map<Key, Handle>, ghost u: nat) returns (ghost i: nat)
      requires Mirrored() && Gone(freed, nodes) && Sound(lru, Books(P(), pinned, nodes, c, u, lruUsage))
          && table.Valid()
      requires h !in nodes && h !in freed && Fresh(h) && usage == u + h.charge
      requires table.contents == c[h.key := h] && h.key !in c && (usage <= capacity || (order == [] && want))
      modifies `lowPri, `bottomPri, `lruUsage, `highUsage, `lowUsage, `order, `nb, `nl, `nodes, `pinned
      modifies nodes.Keys`next, nodes.Keys`prev, nodes.Keys`inHigh, nodes.Keys`inLow, h`next, h`prev, h`inHigh,
          h`inLow, h`refs
      ensures Held() && (usage > capacity ==> order == []) && (old(Bounded()) ==> Bounded())
          && nodes.Keys == old(nodes.Keys) + {h}
      ensures want ==> h.refs == 1 && pinned == old(pinned) + [h] && order == old(order)
      ensures !want ==> h.refs == 0 && pinned == old(pinned) && i <= |old(order)| && order == With(old(order), i, h)
      ensures !want ==> NewestAt(old(order), i, PoolOf(h), old(nodes))
    {
      hide Mirrored, ListOk, Sound, HandleTable.Valid, Gone, ListedAt, NewestAt, With;
      i := 0;
      if want {
        AddPinned(h, c, u);
      } else {
        ghost var b := Books(P(), pinned, nodes, c, u, lruUsage);
        AddListed(h, c, u);
        i := Position(b.p, PoolOf(h));
        ListedIs(lru, b, PoolOf(h), h, order);
      }
    }

    method MakeHandle(key: Key, charge: nat, priority: Priority) returns (h: Handle)
      ensures fresh(h) && h.key == key && h.charge == charge && h.priority == priority && !h.hit
      ensures Fresh(h)
    {
      h := new Handle(key, charge);
      h.priority := priority;
      h.inCache := true;
    }

    /** Insert, when there is room; `deleted` are the handles to be freed afterwards. */
    method Accept(h: Handle, want: bool, deleted: seq<Handle>)
      returns (s: Outcome, deleted': seq<Handle>, ghost k: nat, ghost i: nat)
      requires Held() && h !in nodes && h !in freed && Fresh(h) && h !in deleted && Disposable(deleted)
      requires usage + h.charge <= capacity || (order == [] && want)
      modifies `lowPri, `bottomPri, `usage, `lruUsage, `highUsage, `lowUsage, `order, `nb, `nl, `nodes, `pinned
      modifies table, table.list
      modifies nodes.Keys`next, nodes.Keys`prev, nodes.Keys`inCache, nodes.Keys`nextHash, nodes.Keys`inHigh,
          nodes.Keys`inLow, h`next, h`prev, h`inCache, h`nextHash, h`inHigh, h`inLow, h`refs
      ensures Held() && (usage > capacity ==> order == []) && (old(Bounded()) ==> Bounded())
      ensures Disposable(deleted')
      ensures table.contents == old(table.contents)[h.key := h]
          && s == if h.key in old(table.contents) then OkOverwritten else Ok
      ensures
        var replaced: Handle? := if h.key in old(table.contents) then old(table.contents)[h.key] else null;
        var dropped := replaced != null && replaced in old(order);
        && deleted' == deleted + (if dropped then [replaced] else [])
        && Seated(want, old(order), old(nodes), old(pinned), replaced, dropped, k, i, h, h.refs, PoolOf(h), order,
             pinned)
    {
      hide PoolCap, Held, Seated;
      ghost var before := nodes;
      var replaced, dropped;
      replaced, dropped, k, i := Enter(h, want);
      s := if replaced != null then OkOverwritten else Ok;
      deleted' := deleted;
      StillDisposable(deleted, before, nodes, h);
      if dropped {
        var last: Handle := replaced;
        deleted' := deleted + [last];
      }
    }

    /** Insert, once room has been made as far as possible. */
    method Place(h: Handle, want: bool, deleted: seq<Handle>)
      returns (s: Outcome, deleted': seq<Handle>, ghost more: seq<Handle>, ghost k: nat, ghost i: nat)
      requires Held() && h !in nodes && h !in freed && Fresh(h) && h !in deleted && Disposable(deleted)
      requires usage + h.charge <= capacity || order == []
      modifies `lowPri, `bottomPri, `usage, `lruUsage, `highUsage, `lowUsage, `order, `nb, `nl, `nodes, `pinned
      modifies table, table.list
      modifies nodes.Keys`next, nodes.Keys`prev, nodes.Keys`inCache, nodes.Keys`nextHash, nodes.Keys`inHigh,
          nodes.Keys`inLow, h`next, h`prev, h`inCache, h`nextHash, h`inHigh, h`inLow, h`refs
      ensures Held() && (usage > capacity ==> order == []) && (old(Bounded()) ==> Bounded())
      ensures Disposable(deleted') && deleted' == deleted + more
      ensures Inserted(want, strict, capacity, old(usage), old(table.contents), old(pinned), old(order), old(nodes), h,
          h.refs, PoolOf(h), k, i, s, table.contents, pinned, order, more)
    {
      hide PoolCap, Held, Seated;
      k, i, more := 0, 0, [];
      if usage + h.charge > capacity && (strict || !want) {
        h.inCache := false;
        s, deleted' := if want then MemoryLimit else Ok, deleted;
        if !want {
          // as if inserted and evicted at once
          deleted', more := deleted + [h], [h];
        }
      } else {
        ghost var c, order0 := table.contents, order;
        s, deleted', k, i := Accept(h, want, deleted);
        more := if h.key in c && c[h.key] in order0 then [c[h.key]] else [];
      }
    }

    /** InsertItem: makes room for the charge, then puts a new handle in the table, unless it does not fit
        and must not exceed the capacity or is not even wanted. The ghost results are the handles evicted,
        the handles freed besides, and the list, usage and table once room had been made. */
    method InsertItem(h: Handle, want: bool)
      returns (s: Outcome, ghost evicted: seq<Handle>, ghost more: seq<Handle>, ghost k: nat, ghost i: nat,
          ghost order1: seq<Handle>, ghost usage1: nat, ghost contents1: map<Key, Handle>)
      requires Held() && Fresh(h) && h !in nodes && h !in freed
      modifies `lowPri, `bottomPri, `usage, `lruUsage, `highUsage, `lowUsage, `order, `nb, `nl, `nodes, `pinned, `freed
      modifies table, table.list
      modifies nodes.Keys`next, nodes.Keys`prev, nodes.Keys`inCache, nodes.Keys`nextHash, nodes.Keys`inHigh,
          nodes.Keys`inLow, h`next, h`prev, h`inCache, h`nextHash, h`inHigh, h`inLow, h`refs
      ensures Held() && (usage > capacity ==> order == []) && (old(Bounded()) ==> Bounded())
      ensures |evicted| == Evictions(old(order), old(usage), h.charge, capacity)
          && freed == old(freed) + (evicted + more)
      ensures EvictedTo(old(order), old(usage), old(table.contents), evicted, order1, usage1, contents1)
      ensures Inserted(want, strict, capacity, usage1, contents1, old(pinned), order1, old(nodes), h, h.refs,
          PoolOf(h), k, i, s, table.contents, pinned, order, more)
    {
      hide PoolCap, Held, Disposable, Evictions, Fresh, EvictedTo, Inserted, SameFlags;
      OrderedOnce();
      var deleted := EvictFromLru(h.charge);
      evicted := deleted;
      order1, usage1, contents1 := order, usage, table.contents;
      ghost var nodes1 := nodes;
      s, deleted, more, k, i := Place(h, want, deleted);
      InsertedKept(want, strict, capacity, usage1, contents1, old(pinned), order1, nodes1, old(nodes), h, h.refs,
          PoolOf(h), k, i, s, table.contents, pinned, order, more);
      NotifyEvicted(deleted);
    }

    /** Makes a handle for the entry and inserts it; `made` is that handle. */
    method Insert(key: Key, charge: nat, priority: Priority, want: bool)
      returns (s: Outcome, e: Handle?, ghost evicted: seq<Handle>, ghost made: Handle, ghost more: seq<Handle>,
          ghost k: nat, ghost i: nat, ghost order1: seq<Handle>, ghost usage1: nat, ghost contents1: map<Key, Handle>)
      requires Valid()
      modifies `lowPri, `bottomPri, `usage, `lruUsage, `highUsage, `lowUsage, `order, `nb, `nl, `nodes, `pinned, `freed
      modifies table, table.list
      modifies nodes.Keys`next, nodes.Keys`prev, nodes.Keys`inCache, nodes.Keys`nextHash, nodes.Keys`inHigh,
          nodes.Keys`inLow
      ensures Valid() && (old(Bounded()) ==> Bounded())
      ensures |evicted| == Evictions(old(order), old(usage), charge, capacity)
          && freed == old(freed) + (evicted + more)
      ensures made.key == key && made.charge == charge && made.priority == priority && !made.hit && fresh(made)
          && e == (if want && !s.MemoryLimit? then made else null)
      ensures EvictedTo(old(order), old(usage), old(table.contents), evicted, order1, usage1, contents1)
      ensures Inserted(want, strict, capacity, usage1, contents1, old(pinned), order1, old(nodes), made, made.refs,
          PoolOf(made), k, i, s, table.contents, pinned, order, more)
    {
      hide PoolCap, Held, Configured, Evictions, Fresh, EvictedTo, Inserted;
      var h := MakeHandle(key, charge, priority);
      made := h;
      s, evicted, more, k, i, order1, usage1, contents1 := InsertItem(h, want);
      e := if want && !s.MemoryLimit? then h else null;
    }

    /** A handle outside the table, charged if it fits or may exceed the capacity, or else uncharged. */
    method CreateStandalone(key: Key, charge: nat, allowUncharged: bool)
        returns (e: Handle?, ghost evicted: seq<Handle>)
      requires Valid()
      modifies `lowPri, `bottomPri, `usage, `lruUsage, `highUsage, `lowUsage, `order, `nb, `nl, `nodes, `pinned, `freed
      modifies table`elems, table`chains, table`links, table`contents, table.list
      modifies nodes.Keys`next, nodes.Keys`prev, nodes.Keys`inCache, nodes.Keys`nextHash
      ensures Valid() && (old(Bounded()) ==> Bounded())
      ensures |evicted| == Evictions(old(order), old(usage), charge, capacity) && freed == old(freed) + evicted
      ensures exists usage1: nat ::
        && EvictedTo(old(order), old(usage), old(table.contents), evicted, order, usage1, table.contents)
        && var refused := strict && usage1 + charge > capacity;
           if refused && !allowUncharged then e == null && pinned == old(pinned)
           else
             && e != null && fresh(e) && e.key == key && e.refs == 1
             && e.charge == (if refused then 0 else charge) && pinned == old(pinned) + [e]
    {
      hide PoolCap, Held, EvictedTo, Disposable, Configured, Evictions;
      var deleted := EvictFromLru(charge);
      evicted := deleted;
      ghost var usage1 := usage;
      e := null;
      var refused := strict && usage + charge > capacity;
      if !refused || allowUncharged {
        e := AddStandalone(key, if refused then 0 else charge, deleted);
      }
      NotifyEvicted(deleted);
      assert EvictedTo(old(order), old(usage), old(table.contents), evicted, order, usage1, table.contents);
    }

    method AddStandalone(key: Key, charge: nat, ghost deleted: seq<Handle>) returns (h: Handle)
      requires Held() && Disposable(deleted)
      modifies `usage, `nodes, `pinned
      ensures Held() && Disposable(deleted) && fresh(h)
      ensures h.key == key && h.charge == charge && h.refs == 1 && pinned == old(pinned) + [h]
          && usage == old(usage) + charge
    {
      hide Sound, HandleTable.Valid, ListOk, Mirrored, Gone;
      h := new Handle(key, charge);
      h.standalone := true;
      StillDisposable(deleted, nodes, nodes[h := NodeOf(h)], h);
      usage := usage + charge;
      AddPinned(h, table.contents, usage - charge);
    }

    method SetStrictCapacityLimit(strict: bool)
      requires Valid()
      modifies `strict
      ensures Valid() && this.strict == strict
    {
      hide PoolCap, Held;
      this.strict := strict;
    }

    /** MaintainPoolSize changes the pools and nothing else. */
    method Rebalance()
      requires Held()
      modifies `lowPri, `bottomPri, `highUsage, `lowUsage, `nb, `nl, `nodes, nodes.Keys`inHigh, nodes.Keys`inLow
      ensures Held() && Bounded()
    {
      hide ListOk, Sound, HandleTable.Valid, Mirrored, Gone, OnlyFlags;
      ghost var b := B();
      SoundList(lru, b);
      MaintainPoolSize();
      FlagsSound(lru, b, P(), nodes);
      GoneSame(freed, b.nodes, nodes);
    }

    method SetHighPriorityPoolRatio(ratio: real)
      requires Valid() && ratio >= 0.0
      modifies `highRatio, `highCap, `lowPri, `bottomPri, `highUsage, `lowUsage, `nb, `nl, `nodes, nodes.Keys`inHigh,
          nodes.Keys`inLow
      ensures Valid() && Bounded() && highRatio == ratio
    {
      hide PoolCap, Held;
      highRatio := ratio;
      highCap := PoolCap(capacity, highRatio);
      Rebalance();
    }

    method SetLowPriorityPoolRatio(ratio: real)
      requires Valid() && ratio >= 0.0
      modifies `lowRatio, `lowCap, `lowPri, `bottomPri, `highUsage, `lowUsage, `nb, `nl, `nodes, nodes.Keys`inHigh,
          nodes.Keys`inLow
      ensures Valid() && Bounded() && lowRatio == ratio
    {
      hide PoolCap, Held;
      lowRatio := ratio;
      lowCap := PoolCap(capacity, lowRatio);
      Rebalance();
    }

    /** Usage by handles that are referenced, hence not evictable. */
    method GetPinnedUsage() returns (pinnedUsage: nat)
      requires Valid()
      ensures pinnedUsage == ChargeSum(pinned)
    {
      hide HandleTable.Valid, ListOk, ChargeSum;
      pinnedUsage := usage - lruUsage;
    }

    // -------------------------------------------------------------------------------------
    // What Valid means for a client

    /** The three states of an entry: on the list exactly when in the table without references. */
    lemma EntryStates(h: Handle)
      requires Valid() && h in nodes && h != lru
      ensures h in order <==> InTable(h, table.contents) && h.refs == 0
      ensures h in pinned <==> h.refs > 0
      ensures h.inCache <==> InTable(h, table.contents)
      ensures h !in freed
    {
      hide PoolCap, HandleTable.Valid, ListOk, ChargeSum;
      MirrorAt(h);
      assert Status(h, lru, order, pinned, nodes[h], table.contents);
    }

    /** The counters are sums over the entries, and a cache over its capacity has nothing to evict. */
    lemma Counters()
      requires Valid()
      ensures usage == ChargeSum(order) + ChargeSum(pinned) && lruUsage == ChargeSum(order)
      ensures usage > capacity ==> lru.next == lru
      ensures nb + nl <= |order| && lowUsage == ChargeSum(order[nb..nb + nl])
          && highUsage == ChargeSum(order[nb + nl..|order|])
    {
      NotEmpty();
      hide PoolCap, HandleTable.Valid, ChargeSum, Membership, Ringed, Flagged;
    }

    /** From oldest to newest the list is the bottom, the low and the high segment, linked both ways. */
    lemma Segments(i: nat)
      requires Valid() && i < |order|
      ensures order[i].inHigh == (i >= nb + nl) && order[i].inLow == (nb <= i < nb + nl)
      ensures order[i].next == (if i + 1 < |order| then order[i + 1] else lru)
          && order[i].prev == (if i > 0 then order[i - 1] else lru)
      ensures nb + nl <= |order| && bottomPri == (if nb == 0 then lru else order[nb - 1])
          && lowPri == (if nb + nl == 0 then lru else order[nb + nl - 1])
    {
      hide PoolCap, HandleTable.Valid, ChargeSum, Membership, Ringed;
      var ring := Ring(lru, order);
      assert ring[i + 1] == order[i];
      RingAt(ring, nodes, i + 1);
      MirrorAt(order[i]);
    }
  }

  lemma EmptySound(lru: Handle, node: Node)
    requires node.next == lru && node.prev == lru && !node.inCache
    ensures Sound(lru, Books(Pools([], 0, 0, lru, lru, 0, 0), [], map[lru := node], map[], 0, 0))
  {
  }

  lemma FlagsSound(lru: Handle, b: Books, p': Pools, m: Nodes)
    requires Sound(lru, b) && OnlyFlags(m, b.nodes) && ListOk(lru, p', m) && p'.order == b.p.order
    ensures Sound(lru, b.(p := p', nodes := m))
  {
    hide ListOk, ChargeSum;
    forall h | h in m ensures Status(h, lru, b.p.order, b.pinned, m[h], b.contents) {
      assert Status(h, lru, b.p.order, b.pinned, b.nodes[h], b.contents);
    }
  }

  lemma StillDisposable(deleted: seq<Handle>, nodes: Nodes, nodes': Nodes, h: Handle)
    requires Outside(deleted, nodes) && nodes'.Keys <= nodes.Keys + {h} && h !in deleted
    ensures Outside(deleted, nodes')
  {
  }

  /** The list without a handle that was dropped from position `k`. */
  ghost predicate Shortened(order: seq<Handle>, e: Handle?, dropped: bool, k: nat, order': seq<Handle>) {
    if dropped then k < |order| && order[k] == e && order' == Without(order, k) else order' == order
  }

  function Rank(high: bool, low: bool): nat { if high then 2 else if low then 1 else 0 }

  function RankOf(pool: Priority): nat { Rank(pool.High?, pool.Low?) }

  /** Position `i` is the newest end of a pool: behind the handles of that pool and of lower ones. */
  ghost predicate NewestAt(order: seq<Handle>, i: nat, pool: Priority, nodes: Nodes) {
    && i <= |order| && (forall j | 0 <= j < |order| :: order[j] in nodes)
    && forall j | 0 <= j < |order| :: Rank(nodes[order[j]].high, nodes[order[j]].low) <= RankOf(pool) <==> j < i
  }

  /** Handles that are still known have the pool flags they had. */
  ghost predicate SameFlags(nodes': Nodes, nodes: Nodes) {
    forall h | h in nodes' :: h in nodes && nodes'[h].high == nodes[h].high && nodes'[h].low == nodes[h].low
  }

  lemma SameFlagsTrans(a: Nodes, b: Nodes, c: Nodes)
    ensures SameFlags(a, a) && (SameFlags(a, b) && SameFlags(b, c) ==> SameFlags(a, c))
  {
  }

  lemma RemovedFlags(lru: Handle, p: Pools, nodes: Nodes, k: nat, p': Pools, nodes': Nodes)
    requires Removed(lru, p, nodes, k, p', nodes')
    ensures SameFlags(nodes', nodes)
  {
  }

  lemma NewestKept(order: seq<Handle>, i: nat, pool: Priority, nodes': Nodes, nodes: Nodes)
    requires SameFlags(nodes', nodes)
    ensures NewestAt(order, i, pool, nodes') ==> NewestAt(order, i, pool, nodes)
  {
  }

  /** Where the new handle `h` went, and what became of the handle it replaces. */
  ghost predicate Seated(want: bool, order: seq<Handle>, nodes: Nodes, pinned: seq<Handle>, replaced: Handle?,
      dropped: bool, k: nat, i: nat, h: Handle, refs: nat, pool: Priority, order': seq<Handle>, pinned': seq<Handle>) {
    if want then refs == 1 && pinned' == pinned + [h] && Shortened(order, replaced, dropped, k, order')
    else
      && refs == 0 && pinned' == pinned && (dropped ==> k < |order| && order[k] == replaced)
      && var rest := if dropped then Without(order, k) else order;
         NewestAt(rest, i, pool, nodes) && order' == With(rest, i, h)
  }

  /** What Insert did with the new handle `h`, once room had been made as far as possible; `more` is freed. */
  ghost predicate Inserted(want: bool, strict: bool, capacity: nat, usage: nat, c: map<Key, Handle>,
      pinned: seq<Handle>, order: seq<Handle>, nodes: Nodes, h: Handle, refs: nat, pool: Priority, k: nat, i: nat,
      s: Outcome, c': map<Key, Handle>, pinned': seq<Handle>, order': seq<Handle>, more: seq<Handle>) {
    if usage + h.charge <= capacity || (want && !strict) then
      var replaced: Handle? := if h.key in c then c[h.key] else null;
      var dropped := replaced != null && replaced in order;
      && c' == c[h.key := h] && s == (if h.key in c then OkOverwritten else Ok)
      && more == (if dropped then [replaced] else [])
      && Seated(want, order, nodes, pinned, replaced, dropped, k, i, h, refs, pool, order', pinned')
    else
      && s == (if want then MemoryLimit else Ok) && refs == 0 && c' == c && pinned' == pinned && order' == order
      && more == if want then [] else [h]
  }

  lemma InsertedKept(want: bool, strict: bool, capacity: nat, usage: nat, c: map<Key, Handle>, pinned: seq<Handle>,
      order: seq<Handle>, nodes': Nodes, nodes: Nodes, h: Handle, refs: nat, pool: Priority, k: nat, i: nat,
      s: Outcome, c': map<Key, Handle>, pinned': seq<Handle>, order': seq<Handle>, more: seq<Handle>)
    requires SameFlags(nodes', nodes)
    requires Inserted(want, strict, capacity, usage, c, pinned, order, nodes', h, refs, pool, k, i, s, c', pinned',
        order', more)
    ensures Inserted(want, strict, capacity, usage, c, pinned, order, nodes, h, refs, pool, k, i, s, c', pinned',
        order', more)
  {
    hide NewestAt, SameFlags, Without;
    NewestKept(order, i, pool, nodes', nodes);
    if k < |order| {
      NewestKept(Without(order, k), i, pool, nodes', nodes);
    }
  }

  datatype Outcome = Ok | OkOverwritten | MemoryLimit

  lemma ListedIs(lru: Handle, b: Books, pool: Priority, h: Handle, order': seq<Handle>)
    requires Sound(lru, b) && ListedAt(b.p, pool, h, order')
    ensures Position(b.p, pool) <= |b.p.order| && order' == With(b.p.order, Position(b.p, pool), h)
    ensures NewestAt(b.p.order, Position(b.p, pool), pool, b.nodes)
  {
    hide Membership, ChargeSum, With, Ringed;
  }

  /** `h` is the newest handle of its pool. */
  ghost predicate ListedAt(p: Pools, pool: Priority, h: Handle, order': seq<Handle>) {
    p.nb + p.nl <= |p.order| && order' == With(p.order, Position(p, pool), h)
  }

  lemma ListedNew(lru: Handle, b: Books, freed: seq<Handle>, h: Handle, node: Node, pool: Priority, p': Pools,
      nodes': Nodes)
    requires Sound(lru, b) && h !in b.nodes && node.refs == 0 && node.inCache && h.key !in b.contents
    requires Gone(freed, b.nodes) && h !in freed
    requires Pushed(lru, b.p, b.nodes[h := node], pool, h, p', nodes')
    ensures Sound(lru, Books(p', b.pinned, nodes', b.contents[h.key := h], b.usage + h.charge, b.lruUsage + h.charge))
    ensures Gone(freed, nodes') && nodes'.Keys == b.nodes.Keys + {h}
    ensures ListedAt(b.p, pool, h, p'.order)
  {
    hide Sound, With, ListOk, Rebooked;
    AddedListedSound(lru, b, h, node, pool, p', nodes');
  }

  function Cost(e: Handle, dropped: bool): nat { if dropped then e.charge else 0 }

  /** A handle of the table is known, and is on the list exactly when it has no references. */
  lemma WhereListed(lru: Handle, b: Books, freed: seq<Handle>, e: Handle)
    requires Sound(lru, b) && InTable(e, b.contents) && Gone(freed, b.nodes)
    ensures e in b.nodes && e !in freed && (b.nodes[e].refs == 0 <==> e in b.p.order)
    ensures b.nodes[e].refs != 0 ==> e in b.pinned
  {
    hide ListOk, ChargeSum;
    assert Keyed(b.contents, b.nodes);
    assert Status(e, lru, b.p.order, b.pinned, b.nodes[e], b.contents);
  }

  lemma FreedBooks(lru: Handle, b: Books, freed: seq<Handle>, j: nat)
    requires Sound(lru, b) && j < |b.pinned| && Gone(freed, b.nodes)
    ensures var e := b.pinned[j];
      && e in b.nodes && b.usage >= e.charge && e !in freed
          && (b.nodes[e := b.nodes[e].(refs := 0)]) - {e} == b.nodes - {e}
      && Sound(lru, Books(b.p, Without(b.pinned, j), b.nodes - {e},
                          if b.nodes[e].inCache then b.contents - {e.key}
                              else b.contents, b.usage - e.charge, b.lruUsage))
  {
    hide Sound, Without;
    FreedSound(lru, b, j);
  }

  lemma GivenBack(lru: Handle, b: Books, j: nat, pool: Priority, p': Pools, nodes': Nodes)
    requires Sound(lru, b) && j < |b.pinned| && b.pinned[j] in b.nodes && b.nodes[b.pinned[j]].inCache
    requires Pushed(lru, b.p, Referenced(b, b.pinned[j], 0).nodes, pool, b.pinned[j], p', nodes')
    ensures Sound(lru, Books(p', Without(b.pinned, j), nodes', b.contents, b.usage, b.lruUsage + b.pinned[j].charge))
    ensures ReturnedTo(b.p, b.pinned, pool, b.pinned[j], j, p'.order, Without(b.pinned, j))
        && nodes'.Keys == b.nodes.Keys
  {
    hide Sound, Without, With, ListOk, Rebooked;
    ReturnedSound(lru, b, j, pool, p', nodes');
  }

  /** `e` went from position `k` of the list to the referenced handles. */
  ghost predicate PinnedFrom(order: seq<Handle>, pinned: seq<Handle>, k: nat, e: Handle, order': seq<Handle>,
      pinned': seq<Handle>) {
    k < |order| && order[k] == e && order' == Without(order, k) && pinned' == pinned + [e]
  }

  lemma PinnedShorter(order: seq<Handle>, pinned: seq<Handle>, e: Handle)
    ensures forall k, order', pinned' | PinnedFrom(order, pinned, k, e, order', pinned') :: order != []
  {
  }

  /** `e` went from the referenced handles to the list. */
  ghost predicate ReturnedTo(p: Pools, pinned: seq<Handle>, pool: Priority, e: Handle, j: nat, order': seq<Handle>,
      pinned': seq<Handle>) {
    && j < |pinned| && pinned[j] == e && pinned' == Without(pinned, j)
    && Position(p, pool) <= |p.order| && order' == With(p.order, Position(p, pool), e)
  }

  lemma ListedCharge(lru: Handle, b: Books, k: nat)
    requires Sound(lru, b) && k < |b.p.order|
    ensures b.usage >= b.lruUsage >= b.p.order[k].charge
  {
    hide Without, Unlinked, ListOk, Rebooked;
    Unlisted(lru, b, k);
  }

  lemma TakenSound(lru: Handle, b: Books, k: nat, p': Pools, m: Nodes)
    requires Sound(lru, b) && Removed(lru, b.p, b.nodes, k, p', m)
    ensures k < |b.p.order|
    ensures var e := b.p.order[k];
      && e in m && m.Keys == b.nodes.Keys && m[e].refs == 0 && m[e].next == null && m[e].prev == null && e !in b.pinned
      && p'.order == Without(b.p.order, k) && p'.highUsage <= b.p.highUsage && p'.lowUsage <= b.p.lowUsage
      && b.usage >= b.lruUsage >= e.charge
      && Sound(lru, Books(p', b.pinned, m - {e}, b.contents - {e.key}, b.usage - e.charge, b.lruUsage - e.charge))
      && Sound(lru, Books(p', b.pinned + [e], m[e := m[e].(refs := 1)], b.contents, b.usage, b.lruUsage - e.charge))
  {
    hide ListOk, Sound, Unlinked, ChargeSum, Without;
    Unlisted(lru, b, k);
    DroppedSound(lru, b, k, p');
    PinnedSound(lru, b, k, p');
  }

  lemma WithoutFirst(s: seq<Handle>)
    requires s != []
    ensures Without(s, 0) == s[1..]
  {
  }

  lemma GoneOneMore(freed: seq<Handle>, nodes: Nodes, h: Handle, node: Node)
    requires Gone(freed, nodes) && h !in freed
    ensures Gone(freed, nodes[h := node])
  {
  }

  lemma GoneSame(freed: seq<Handle>, nodes: Nodes, m: Nodes)
    requires Gone(freed, nodes) && m.Keys == nodes.Keys
    ensures Gone(freed, m)
  {
  }

  /** `deleted` have been evicted, oldest first, and nothing else has changed. */
  ghost predicate EvictedTo(order0: seq<Handle>, usage0: nat, c0: map<Key, Handle>, deleted: seq<Handle>,
      order: seq<Handle>, usage: nat, c: map<Key, Handle>) {
    && deleted <= order0 && order == order0[|deleted|..]
    && usage + ChargeSum(deleted) == usage0 && c == c0 - KeysOf(deleted)
  }

  lemma EvictedNone(order: seq<Handle>, usage: nat, c: map<Key, Handle>)
    ensures EvictedTo(order, usage, c, [], order, usage, c)
  {
  }

  lemma EvictedFirst(order0: seq<Handle>, usage0: nat, c0: map<Key, Handle>, deleted: seq<Handle>, order: seq<Handle>,
      usage: nat, c: map<Key, Handle>)
    requires EvictedTo(order0, usage0, c0, deleted, order, usage, c)
    ensures deleted <= order0 && order == order0[|deleted|..]
  {
  }

  lemma EvictedMore(order0: seq<Handle>, usage0: nat, c0: map<Key, Handle>, deleted: seq<Handle>, order: seq<Handle>,
      usage: nat, c: map<Key, Handle>)
    requires EvictedTo(order0, usage0, c0, deleted, order, usage, c) && order != [] && usage >= order[0].charge
    ensures EvictedTo(order0, usage0, c0, deleted + [order[0]], order[1..], usage - order[0].charge, c - {order[0].key})
  {
    ChargeAppend(deleted, order[0]);
    KeysAppend(deleted, order[0]);
  }

  ghost function KeysOf(s: seq<Handle>): set<Key> { set h | h in s :: h.key }

  lemma KeysAppend(s: seq<Handle>, e: Handle)
    ensures KeysOf(s + [e]) == KeysOf(s) + {e.key}
  {
    forall k | k in KeysOf(s) + {e.key} ensures k in KeysOf(s + [e]) {
      if k == e.key {
        assert (s + [e])[|s|] == e;
      } else {
        var h :| h in s && h.key == k;
        assert h in s + [e];
      }
    }
  }

  ghost predicate Outside(s: seq<Handle>, nodes: Nodes) {
    forall i | 0 <= i < |s| :: s[i] !in nodes
  }

  /** Every handle is freed at most once, and only when the shard no longer knows it. */
  ghost predicate Gone(freed: seq<Handle>, nodes: Nodes) {
    NoDup(freed) && forall h | h in freed :: h !in nodes
  }

  lemma SoundList(lru: Handle, b: Books)
    requires Sound(lru, b)
    ensures ListOk(lru, b.p, b.nodes) && b.usage >= b.lruUsage
  {
  }
}
