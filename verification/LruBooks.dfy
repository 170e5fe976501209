/** Who is where: every handle of a shard is on the list, or referenced, and in the table or not; and
    the usage counters are sums over them. On values. */
module LruBooks {
  import opened Slots
  import opened LruTable
  import opened LruList

  /** `pinned` are the handles with references, in the table or not, standalone ones included. */
  datatype Books = Books(p: Pools, pinned: seq<Handle>, nodes: Nodes, contents: map<Key, Handle>, usage: nat,
      lruUsage: nat)

  predicate InTable(h: Handle, contents: map<Key, Handle>) { h.key in contents && contents[h.key] == h }

  /** The three states of an entry: listed, referenced in the table, referenced outside it. */
  ghost predicate Status(h: Handle, lru: Handle, order: seq<Handle>, pinned: seq<Handle>, node: Node,
      contents: map<Key, Handle>) {
    && (node.inCache <==> InTable(h, contents))
    && (h in order ==> node.refs == 0 && node.inCache)
    && (h in pinned ==> node.refs > 0 && node.next == null && node.prev == null)
    && (h == lru ==> !node.inCache)
    && (h == lru || h in order || h in pinned)
  }

  ghost predicate Keyed(contents: map<Key, Handle>, nodes: Nodes) {
    forall k | k in contents :: contents[k].key == k && contents[k] in nodes
  }

  ghost predicate Known(s: seq<Handle>, nodes: Nodes) {
    forall h | h in s :: h in nodes
  }

  ghost predicate Membership(lru: Handle, order: seq<Handle>, pinned: seq<Handle>, nodes: Nodes, contents: map<Key,
      Handle>) {
    && NoDup(pinned) && lru in nodes && lru !in order && lru !in pinned
    && Known(order, nodes) && Known(pinned, nodes) && Keyed(contents, nodes)
    && forall h | h in nodes :: Status(h, lru, order, pinned, nodes[h], contents)
  }

  ghost predicate Sound(lru: Handle, b: Books) {
    && ListOk(lru, b.p, b.nodes) && Membership(lru, b.p.order, b.pinned, b.nodes, b.contents)
    && b.lruUsage == ChargeSum(b.p.order) && b.usage == b.lruUsage + ChargeSum(b.pinned)
  }

  lemma RingFrame(ring: seq<Handle>, m: Nodes, m': Nodes)
    requires Ringed(ring, m) && forall i | 0 <= i < |ring| :: ring[i] in m' && m'[ring[i]] == m[ring[i]]
    ensures Ringed(ring, m')
  {
    hide After, Before;
  }

  lemma FlagFrame(order: seq<Handle>, nb: nat, nl: nat, m: Nodes, m': Nodes)
    requires Flagged(order, nb, nl, m) && forall i | 0 <= i < |order| :: order[i] in m' && m'[order[i]] == m[order[i]]
    ensures Flagged(order, nb, nl, m')
  {
  }

  /** The list depends on the nodes of its own handles only. */
  lemma ListFrame(lru: Handle, p: Pools, m: Nodes, m': Nodes)
    requires ListOk(lru, p, m) && lru in m && lru in m' && m'[lru] == m[lru]
    requires forall h | h in p.order :: h in m && h in m' && m'[h] == m[h]
    ensures ListOk(lru, p, m')
  {
    hide Ringed, Flagged, Weighed, Marked;
    var ring := Ring(lru, p.order);
    forall i | 0 <= i < |ring| ensures ring[i] in m' && m'[ring[i]] == m[ring[i]] {
      assert i > 0 ==> ring[i] == p.order[i - 1];
    }
    RingFrame(ring, m, m');
    FlagFrame(p.order, p.nb, p.nl, m, m');
  }

  /** An operation on one handle `e` leaves the standing of all others as it was. */
  ghost predicate OthersKept(e: Handle, order: seq<Handle>, pinned: seq<Handle>, nodes: Nodes, contents: map<Key,
      Handle>, order': seq<Handle>, pinned': seq<Handle>, nodes': Nodes, contents': map<Key, Handle>) {
    && (forall h | h in nodes && h != e :: h in nodes')
    && (forall h | h in nodes' && h != e ::
          && h in nodes && nodes'[h].refs == nodes[h].refs && nodes'[h].inCache == nodes[h].inCache
          && (h in pinned ==> nodes'[h].next == nodes[h].next && nodes'[h].prev == nodes[h].prev)
          && (h in order' <==> h in order) && (h in pinned' <==> h in pinned)
          && (InTable(h, contents') <==> InTable(h, contents)))
  }

  lemma Changed(e: Handle, lru: Handle, order: seq<Handle>, pinned: seq<Handle>, nodes: Nodes, contents: map<Key,
      Handle>, order': seq<Handle>, pinned': seq<Handle>, nodes': Nodes, contents': map<Key, Handle>)
    requires Membership(lru, order, pinned, nodes, contents) && e != lru
    requires OthersKept(e, order, pinned, nodes, contents, order', pinned', nodes', contents')
    requires NoDup(pinned') && Known(order', nodes') && Known(pinned', nodes') && Keyed(contents', nodes')
    requires e in nodes' ==> Status(e, lru, order', pinned', nodes'[e], contents')
    ensures Membership(lru, order', pinned', nodes', contents')
  {
    forall h | h in nodes' ensures Status(h, lru, order', pinned', nodes'[h], contents') {
      if h != e {
        assert Status(h, lru, order, pinned, nodes[h], contents);
      }
    }
  }

  /** A handle that leaves the list keeps its references and table membership; so does everybody else. */
  lemma UnjoinedBooks(lru: Handle, p: Pools, nodes: Nodes, k: nat)
    requires ListOk(lru, p, nodes) && k < |p.order|
    ensures var e := p.order[k]; Joined(nodes, e) && Rebooked(Unjoined(nodes, e), nodes, Ring(lru, p.order))
    ensures var e := p.order[k]; Unjoined(nodes, e)[e].next == null && Unjoined(nodes, e)[e].prev == null
  {
    hide ChargeSum, Ringed, Without;
    var ring := Ring(lru, p.order);
    assert ring[k + 1] == p.order[k];
    RingAt(ring, nodes, k + 1);
  }

  lemma WithoutHas<T>(s: seq<T>, k: nat)
    requires k < |s| && NoDup(s)
    ensures forall x :: x in Without(s, k) <==> x in s && x != s[k]
  {
    hide Without;
    var w := Without(s, k);
    forall i | 0 <= i < |w| ensures w[i] in s && w[i] != s[k] {
      WithoutAt(s, k, i);
    }
    forall i | 0 <= i < |s| && i != k ensures s[i] in w {
      WithoutAt(s, k, if i < k then i else i - 1);
      assert w[if i < k then i else i - 1] == s[i];
    }
  }

  lemma UnpinnedHas(pinned: seq<Handle>, j: nat, nodes: Nodes)
    requires j < |pinned| && NoDup(pinned) && Known(pinned, nodes)
    ensures Known(Without(pinned, j), nodes) && pinned[j] !in Without(pinned, j)
    ensures forall h | h in nodes && h != pinned[j] :: h in Without(pinned, j) <==> h in pinned
  {
    WithoutHas(pinned, j);
    hide Without;
    var w := Without(pinned, j);
    forall i | 0 <= i < |w| ensures w[i] in nodes {
      WithoutAt(pinned, j, i);
    }
  }

  lemma KnownWithout(s: seq<Handle>, nodes: Nodes, e: Handle)
    requires Known(s, nodes) && e !in s
    ensures Known(s, nodes - {e})
  {
  }

  lemma WithHas<T>(s: seq<T>, k: nat, x: T)
    requires k <= |s|
    ensures forall y :: y in With(s, k, x) <==> y in s || y == x
  {
    hide With;
    var w := With(s, k, x);
    forall i | 0 <= i < |w| ensures w[i] in s || w[i] == x {
      WithAt(s, k, x, i);
    }
    forall i | 0 <= i < |s| ensures s[i] in w {
      WithAt(s, k, x, if i < k then i else i + 1);
      assert w[if i < k then i else i + 1] == s[i];
    }
    WithAt(s, k, x, k);
    assert w[k] == x;
  }

  /** The handle at list position `k`, taken off the list, is unreferenced and in the table. */
  lemma Unlisted(lru: Handle, b: Books, k: nat)
    requires Sound(lru, b) && k < |b.p.order|
    ensures var e := b.p.order[k];
      && e in b.nodes && e != lru && Joined(b.nodes, e) && Rebooked(Unjoined(b.nodes, e), b.nodes, Ring(lru, b.p.order))
      && Unjoined(b.nodes, e)[e].next == null && Unjoined(b.nodes, e)[e].prev == null
      && b.nodes[e].refs == 0 && b.nodes[e].inCache && InTable(e, b.contents) && e !in b.pinned
      && b.lruUsage == ChargeSum(Without(b.p.order, k)) + e.charge && b.usage >= b.lruUsage
      && (forall h :: h in Without(b.p.order, k) <==> h in b.p.order && h != e)
      && (forall h | h in b.pinned :: h !in Ring(lru, b.p.order))
  {
    hide ListOk, ChargeSum, Without, Unlinked, Rebooked, NoDup;
    var e := b.p.order[k];
    Entry(lru, b.p, b.nodes);
    OrderNoDup(lru, b.p.order);
    UnjoinedBooks(lru, b.p, b.nodes, k);
    WithoutHas(b.p.order, k);
    ChargeWithout(b.p.order, k);
    assert Status(e, lru, b.p.order, b.pinned, b.nodes[e], b.contents);
    forall h | h in b.pinned ensures h !in Ring(lru, b.p.order) {
      assert Status(h, lru, b.p.order, b.pinned, b.nodes[h], b.contents);
    }
  }

  lemma ChargeAppend(s: seq<Handle>, e: Handle)
    ensures ChargeSum(s + [e]) == ChargeSum(s) + e.charge
  {
    ChargeConcat(s, [e]);
    assert [e][1..] == [];
  }

  /** Lookup of a listed handle: it leaves the list and gets its first reference. */
  ghost function Pinned(b: Books, k: nat, p': Pools): Books
    requires k < |b.p.order| && b.lruUsage >= b.p.order[k].charge && Joined(b.nodes, b.p.order[k])
  {
    var e := b.p.order[k];
    var m := Unjoined(b.nodes, e);
    b.(p := p', pinned := b.pinned + [e], nodes := m[e := m[e].(refs := 1)], lruUsage := b.lruUsage - e.charge)
  }

  lemma PinnedSound(lru: Handle, b: Books, k: nat, p': Pools)
    requires Sound(lru, b) && k < |b.p.order| && Joined(b.nodes, b.p.order[k])
    requires Removed(lru, b.p, b.nodes, k, p', Unjoined(b.nodes, b.p.order[k]))
    ensures b.lruUsage >= b.p.order[k].charge && Sound(lru, Pinned(b, k, p'))
  {
    hide ListOk, ChargeSum, Without, Unlinked, Unjoined;
    Unlisted(lru, b, k);
    var e := b.p.order[k];
    var m, b' := Unjoined(b.nodes, e), Pinned(b, k, p');
    ListFrame(lru, p', m, b'.nodes);
    ChargeAppend(b.pinned, e);
    Changed(e, lru, b.p.order, b.pinned, b.nodes, b.contents, p'.order, b'.pinned, b'.nodes, b.contents);
  }

  /** Eviction, or erasure, of a listed handle: it leaves the list and the table and is gone. */
  ghost function Dropped(b: Books, k: nat, p': Pools): Books
    requires k < |b.p.order| && b.usage >= b.lruUsage >= b.p.order[k].charge && Joined(b.nodes, b.p.order[k])
  {
    var e := b.p.order[k];
    b.(p := p', nodes := Unjoined(b.nodes, e) - {e}, contents := b.contents - {e.key},
       usage := b.usage - e.charge, lruUsage := b.lruUsage - e.charge)
  }

  lemma DroppedSound(lru: Handle, b: Books, k: nat, p': Pools)
    requires Sound(lru, b) && k < |b.p.order| && Joined(b.nodes, b.p.order[k])
    requires Removed(lru, b.p, b.nodes, k, p', Unjoined(b.nodes, b.p.order[k]))
    ensures b.usage >= b.lruUsage >= b.p.order[k].charge && Sound(lru, Dropped(b, k, p'))
  {
    hide ListOk, ChargeSum, Without, Unlinked, Unjoined;
    Unlisted(lru, b, k);
    var e := b.p.order[k];
    var m, b' := Unjoined(b.nodes, e), Dropped(b, k, p');
    ListFrame(lru, p', m, b'.nodes);
    Changed(e, lru, b.p.order, b.pinned, b.nodes, b.contents, p'.order, b'.pinned, b'.nodes, b'.contents);
  }

  /** Another reference, or one less but not the last. */
  function Referenced(b: Books, e: Handle, refs: nat): Books
    requires e in b.nodes
  {
    b.(nodes := b.nodes[e := b.nodes[e].(refs := refs)])
  }

  lemma ReferencedSound(lru: Handle, b: Books, e: Handle, refs: nat)
    requires Sound(lru, b) && e in b.pinned && refs > 0
    ensures e in b.nodes && Sound(lru, Referenced(b, e, refs))
  {
    hide ListOk, ChargeSum;
    assert Known(b.pinned, b.nodes);
    var b' := Referenced(b, e, refs);
    assert Status(e, lru, b.p.order, b.pinned, b.nodes[e], b.contents);
    ListFrame(lru, b.p, b.nodes, b'.nodes);
    Changed(e, lru, b.p.order, b.pinned, b.nodes, b.contents, b.p.order, b.pinned, b'.nodes, b.contents);
  }

  /** A referenced handle leaves the table and will be freed with its last reference. */
  function Unhashed(b: Books, e: Handle): Books
    requires e in b.nodes
  {
    b.(nodes := b.nodes[e := b.nodes[e].(inCache := false)], contents := b.contents - {e.key})
  }

  lemma UnhashedSound(lru: Handle, b: Books, e: Handle)
    requires Sound(lru, b) && e in b.pinned && InTable(e, b.contents)
    ensures e in b.nodes && Sound(lru, Unhashed(b, e))
  {
    hide ListOk, ChargeSum;
    assert Known(b.pinned, b.nodes);
    var b' := Unhashed(b, e);
    assert Status(e, lru, b.p.order, b.pinned, b.nodes[e], b.contents);
    ListFrame(lru, b.p, b.nodes, b'.nodes);
    Changed(e, lru, b.p.order, b.pinned, b.nodes, b.contents, b.p.order, b.pinned, b'.nodes, b'.contents);
  }

  /** The last reference is given up and the handle is gone, from the table too if it was there. */
  function Freed(b: Books, j: nat): Books
    requires j < |b.pinned| && b.pinned[j] in b.nodes && b.usage >= b.pinned[j].charge
  {
    var e := b.pinned[j];
    b.(pinned := Without(b.pinned, j), nodes := b.nodes - {e}, usage := b.usage - e.charge,
       contents := if b.nodes[e].inCache then b.contents - {e.key} else b.contents)
  }

  lemma FreedSound(lru: Handle, b: Books, j: nat)
    requires Sound(lru, b) && j < |b.pinned|
    ensures b.pinned[j] in b.nodes && b.usage >= b.pinned[j].charge && Sound(lru, Freed(b, j))
  {
    hide ListOk, ChargeSum, Without;
    var e := b.pinned[j];
    assert Known(b.pinned, b.nodes);
    assert Status(e, lru, b.p.order, b.pinned, b.nodes[e], b.contents);
    UnpinnedHas(b.pinned, j, b.nodes);
    NoDupWithout(b.pinned, j);
    ChargeWithout(b.pinned, j);
    var b' := Freed(b, j);
    KnownWithout(b'.pinned, b.nodes, e);
    ListFrame(lru, b.p, b.nodes, b'.nodes);
    Changed(e, lru, b.p.order, b.pinned, b.nodes, b.contents, b.p.order, b'.pinned, b'.nodes, b'.contents);
  }

  /** The last reference is given up and the handle goes back to the list. */
  function Returned(b: Books, j: nat, p': Pools, nodes': Nodes): Books
    requires j < |b.pinned|
  {
    b.(p := p', pinned := Without(b.pinned, j), nodes := nodes', lruUsage := b.lruUsage + b.pinned[j].charge)
  }

  lemma ReturnedReady(lru: Handle, b: Books, j: nat)
    requires Sound(lru, b) && j < |b.pinned|
    ensures b.pinned[j] in b.nodes && b.pinned[j] !in Ring(lru, b.p.order)
    ensures ListOk(lru, b.p, Referenced(b, b.pinned[j], 0).nodes)
  {
    hide ListOk, ChargeSum;
    var e := b.pinned[j];
    assert Known(b.pinned, b.nodes);
    assert Status(e, lru, b.p.order, b.pinned, b.nodes[e], b.contents);
    ListFrame(lru, b.p, b.nodes, Referenced(b, e, 0).nodes);
  }

  lemma ReturnedSound(lru: Handle, b: Books, j: nat, pool: Priority, p': Pools, nodes': Nodes)
    requires Sound(lru, b) && j < |b.pinned| && b.pinned[j] in b.nodes && b.nodes[b.pinned[j]].inCache
    requires Pushed(lru, b.p, Referenced(b, b.pinned[j], 0).nodes, pool, b.pinned[j], p', nodes')
    ensures Sound(lru, Returned(b, j, p', nodes'))
  {
    hide ListOk, ChargeSum, Without, With;
    var e := b.pinned[j];
    assert Known(b.pinned, b.nodes);
    assert Status(e, lru, b.p.order, b.pinned, b.nodes[e], b.contents);
    UnpinnedHas(b.pinned, j, b.nodes);
    NoDupWithout(b.pinned, j);
    ChargeWithout(b.pinned, j);
    WithHas(b.p.order, Position(b.p, pool), e);
    ChargeWith(b.p.order, Position(b.p, pool), e);
    var b' := Returned(b, j, p', nodes');
    PinnedOffRing(lru, b, p'.order, e);
    Changed(e, lru, b.p.order, b.pinned, b.nodes, b.contents, p'.order, b'.pinned, nodes', b.contents);
  }

  lemma PinnedOffRing(lru: Handle, b: Books, order': seq<Handle>, e: Handle)
    requires Sound(lru, b) && forall h :: h in order' <==> h in b.p.order || h == e
    ensures forall h | h in b.pinned && h != e :: h !in Ring(lru, order')
  {
    hide ListOk, ChargeSum;
    forall h | h in b.pinned && h != e ensures h !in Ring(lru, order') {
      assert Known(b.pinned, b.nodes);
      assert Status(h, lru, b.p.order, b.pinned, b.nodes[h], b.contents);
    }
  }

  /** A new handle with one reference, in the table or standalone. */
  function Added(b: Books, e: Handle, node: Node): Books {
    b.(pinned := b.pinned + [e], nodes := b.nodes[e := node], usage := b.usage + e.charge,
       contents := if node.inCache then b.contents[e.key := e] else b.contents)
  }

  lemma AddedSound(lru: Handle, b: Books, e: Handle, node: Node)
    requires Sound(lru, b) && e !in b.nodes && node.refs > 0 && node.next == null && node.prev == null
    requires node.inCache ==> e.key !in b.contents
    ensures Sound(lru, Added(b, e, node))
  {
    hide ListOk, ChargeSum;
    var b' := Added(b, e, node);
    ListFrame(lru, b.p, b.nodes, b'.nodes);
    ChargeAppend(b.pinned, e);
    Changed(e, lru, b.p.order, b.pinned, b.nodes, b.contents, b.p.order, b'.pinned, b'.nodes, b'.contents);
  }

  /** A new handle without a reference, in the table and on the list. */
  function AddedListed(b: Books, e: Handle, p': Pools, nodes': Nodes): Books {
    b.(p := p', nodes := nodes', usage := b.usage + e.charge, lruUsage := b.lruUsage + e.charge,
        contents := b.contents[e.key := e])
  }

  lemma AddedReady(lru: Handle, b: Books, e: Handle, node: Node)
    requires Sound(lru, b) && e !in b.nodes
    ensures e !in Ring(lru, b.p.order) && ListOk(lru, b.p, b.nodes[e := node])
  {
    hide ListOk, ChargeSum;
    ListFrame(lru, b.p, b.nodes, b.nodes[e := node]);
  }

  lemma AddedListedSound(lru: Handle, b: Books, e: Handle, node: Node, pool: Priority, p': Pools, nodes': Nodes)
    requires Sound(lru, b) && e !in b.nodes && node.refs == 0 && node.inCache && e.key !in b.contents
    requires Pushed(lru, b.p, b.nodes[e := node], pool, e, p', nodes')
    ensures Sound(lru, AddedListed(b, e, p', nodes'))
  {
    hide ListOk, ChargeSum, With;
    WithHas(b.p.order, Position(b.p, pool), e);
    ChargeWith(b.p.order, Position(b.p, pool), e);
    var b' := AddedListed(b, e, p', nodes');
    PinnedOffRing(lru, b, p'.order, e);
    Changed(e, lru, b.p.order, b.pinned, b.nodes, b.contents, p'.order, b.pinned, nodes', b'.contents);
  }

  /** The sentinel's successor is the oldest handle. */
  lemma Oldest(lru: Handle, p: Pools, nodes: Nodes)
    requires ListOk(lru, p, nodes)
    ensures lru in nodes && nodes[lru].next == if p.order == [] then lru else p.order[0]
  {
    hide ChargeSum, Ringed;
    RingAt(Ring(lru, p.order), nodes, 0);
  }

  /** How many handles EvictFromLRU takes off the old end of the list. */
  function Evictions(order: seq<Handle>, usage: nat, charge: nat, capacity: nat): nat {
    if order == [] || usage + charge <= capacity || usage < order[0].charge then 0
    else 1 + Evictions(order[1..], usage - order[0].charge, charge, capacity)
  }
}
