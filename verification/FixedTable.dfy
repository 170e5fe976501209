/** FixedHyperClockTable run by one thread at a time: probing loops over the slot array. */
module FixedTable {
  import opened Arith
  import opened Slots
  import opened FixedProbe
  import opened Displacements
  import opened ClockTurns
  import opened References

  datatype FixedSlot = FixedSlot(key: HashedKey, charge: nat, meta: Meta, displacements: nat)

  function CellOf(s: FixedSlot): Cell {
    if s.meta.Shareable() then Entry(s.key, s.meta.state.Visible?) else Free
  }

  ghost function Cells(slots: seq<FixedSlot>): seq<Cell> {
    seq(|slots|, i requires 0 <= i < |slots| => CellOf(slots[i]))
  }

  /** Every displacement count is exact, counting `extra` probes of an operation in progress. */
  ghost predicate Counted(bits: nat, slots: seq<FixedSlot>, extra: Span) {
    && |slots| == Pow2(bits)
    && forall s | 0 <= s < |slots| ::
         slots[s].displacements == Count(bits, CellSpans(bits, Cells(slots)), s) + Covers(bits, extra, s)
  }

  /** No slot but `owned` is under construction, and no entry was released more often than acquired. */
  ghost predicate Settled(slots: seq<FixedSlot>, owned: int) {
    forall s | 0 <= s < |slots| ::
      if s == owned then slots[s].meta.state.Construction?
      else slots[s].meta.state.Empty? || (slots[s].meta.Shareable() && slots[s].meta.release <= slots[s].meta.acquire)
  }

  const NOBODY := -1

  function WithWord(slots: seq<FixedSlot>, s: nat, m: Meta): seq<FixedSlot>
    requires s < |slots|
  {
    slots[s := slots[s].(meta := m)]
  }

  function WithCount(slots: seq<FixedSlot>, s: nat, d: nat): seq<FixedSlot>
    requires s < |slots|
  {
    slots[s := slots[s].(displacements := d)]
  }

  lemma CountedMeta(bits: nat, slots: seq<FixedSlot>, extra: Span, s: nat, m: Meta)
    requires Counted(bits, slots, extra) && s < |slots| && m.Shareable() == slots[s].meta.Shareable()
    ensures Counted(bits, WithWord(slots, s, m), extra)
  {
    hide Dist, Count, Pow2;
    assert CellSpans(bits, Cells(WithWord(slots, s, m))) == CellSpans(bits, Cells(slots));
  }

  lemma CountedBump(bits: nat, slots: seq<FixedSlot>, key: HashedKey, i: nat)
    requires Counted(bits, slots, Span(key, 0, i)) && i < Pow2(bits)
    ensures var s := Probe(bits, key, i);
      && Cells(WithCount(slots, s, slots[s].displacements + 1)) == Cells(slots)
      && Counted(bits, WithCount(slots, s, slots[s].displacements + 1), Span(key, 0, i + 1))
  {
    hide Dist, Count, Pow2, Probe, Covers;
    var x := Probe(bits, key, i);
    var u := WithCount(slots, x, slots[x].displacements + 1);
    assert Cells(u) == Cells(slots);
    forall s | 0 <= s < |u| ensures u[s].displacements == Count(bits, CellSpans(bits, Cells(u)), s) + Covers(bits,
        Span(key, 0, i + 1), s) {
      OneMoreProbe(bits, key, 0, i, s);
    }
  }

  /** A rollback step finds a positive count and keeps the rest exact. */
  lemma CountedUndo(bits: nat, slots: seq<FixedSlot>, key: HashedKey, i: nat, upto: nat)
    requires Counted(bits, slots, Span(key, i, upto)) && i < upto <= Pow2(bits)
    ensures var s := Probe(bits, key, i);
      && slots[s].displacements > 0
      && Cells(WithCount(slots, s, slots[s].displacements - 1)) == Cells(slots)
      && Counted(bits, WithCount(slots, s, slots[s].displacements - 1), Span(key, i + 1, upto))
  {
    hide Dist, Count, Pow2, Probe, Covers;
    var x := Probe(bits, key, i);
    OneLessProbe(bits, key, i, upto, x);
    var u := WithCount(slots, x, slots[x].displacements - 1);
    assert Cells(u) == Cells(slots);
    forall s | 0 <= s < |u| ensures u[s].displacements == Count(bits, CellSpans(bits, Cells(u)), s) + Covers(bits,
        Span(key, i + 1, upto), s) {
      OneLessProbe(bits, key, i, upto, s);
    }
  }

  /** Filling or vacating a slot trades an entry's count for that of the operation at hand. */
  lemma CountedTrade(bits: nat, slots: seq<FixedSlot>, extra: Span, x: nat, slot: FixedSlot, extra': Span)
    requires Counted(bits, slots, extra) && x < |slots| && slot.displacements == slots[x].displacements
    requires CellOf(slot) == Free || extra' == NOTHING
    requires CellOf(slots[x]) == Free ==> extra == CellSpan(bits, CellOf(slot), x)
    requires CellOf(slot) == Free ==> extra == NOTHING && extra' == CellSpan(bits, CellOf(slots[x]), x)
    requires CellOf(slots[x]) == Free || CellOf(slot) == Free
    ensures Cells(slots[x := slot]) == Cells(slots)[x := CellOf(slot)] && Counted(bits, slots[x := slot], extra')
  {
    hide Dist, Count, Pow2;
    var u := slots[x := slot];
    assert Cells(u) == Cells(slots)[x := CellOf(slot)];
    forall s | 0 <= s < |u| ensures u[s].displacements == Count(bits, CellSpans(bits, Cells(u)), s) + Covers(bits,
        extra', s) {
      CellChange(bits, Cells(slots), x, CellOf(slot), s);
    }
  }

  /** Slots before an entry on its probe path have a positive count. */
  lemma CountedAhead(bits: nat, slots: seq<FixedSlot>, extra: Span, x: nat, i: nat)
    requires Counted(bits, slots, extra) && x < |slots| && CellOf(slots[x]).Entry? && i < Dist(bits, slots[x].key, x)
    ensures slots[Probe(bits, slots[x].key, i)].displacements > 0
  {
    hide Count, Pow2, Probe;
    var s := Probe(bits, slots[x].key, i);
    DistIs(bits, slots[x].key, i);
    assert CellSpans(bits, Cells(slots))[x] == Span(slots[x].key, 0, Dist(bits, slots[x].key, x));
    CountAtLeast(bits, CellSpans(bits, Cells(slots)), x, s);
  }

  /** If the first `n` probes found no visible entry with the key, and the search stopped there because
      the last count was zero or the sequence was exhausted, then there is none. */
  lemma NoneBeyond(bits: nat, slots: seq<FixedSlot>, key: HashedKey, n: nat)
    requires Counted(bits, slots, NOTHING) && 0 < n <= Pow2(bits) && Passed(bits, slots, key, n)
    requires n == Pow2(bits) || slots[Probe(bits, key, n - 1)].displacements == 0
    ensures NoneVisible(slots, key)
  {
    hide Count, Pow2, Counted, Probe;
    forall x | 0 <= x < |slots| ensures CellOf(slots[x]) != Entry(key, true) {
      var d := Dist(bits, key, x);
      if CellOf(slots[x]) == Entry(key, true) && n - 1 < d {
        CountedAhead(bits, slots, NOTHING, x, n - 1);
      }
    }
  }

  lemma NoneBefore(now: seq<FixedSlot>, was: seq<FixedSlot>, key: HashedKey)
    requires Untouched(now, was) && NoneVisible(now, key)
    ensures NoneVisible(was, key)
  {
    forall x | 0 <= x < |was| ensures CellOf(was[x]) != Entry(key, true) {
      assert CellOf(now[x]) == CellOf(was[x]);
    }
  }

  /** ModTableSize. */
  function Wrap(bits: nat, x: nat): (s: nat)
    ensures s < Pow2(bits)
  {
    x % Pow2(bits)
  }

  /** One step of the probing loop is the next probe, and it is back at the first slot exactly when
      every slot has been visited. */
  lemma NextProbe(bits: nat, key: HashedKey, i: nat)
    requires i < Pow2(bits)
    ensures Wrap(bits, key.lo) == Probe(bits, key, 0)
    ensures Wrap(bits, Probe(bits, key, i) + Increment(key)) == Probe(bits, key, i + 1)
    ensures Probe(bits, key, i + 1) == Probe(bits, key, 0) <==> i + 1 == Pow2(bits)
  {
    ProbeReturns(bits, key);
    if i + 1 < Pow2(bits) {
      ProbesDiffer(bits, key, 0, i + 1);
    }
  }

  /** A lookup's visit to a slot without a match leaves an acquire count behind if nothing is there. */
  function Strayed(slots: seq<FixedSlot>, s: nat): seq<FixedSlot>
    requires s < |slots|
  {
    if slots[s].meta.Shareable() then slots else slots[s := Acquired(slots[s])]
  }

  /** Every slot holds the very same entry, or still nothing: then only a stray acquire count may differ. */
  ghost predicate Untouched(now: seq<FixedSlot>, was: seq<FixedSlot>) {
    && |now| == |was|
    && forall x | 0 <= x < |now| ::
         now[x] == was[x] || (!was[x].meta.Shareable()
             && now[x] == was[x].(meta := was[x].meta.(acquire := now[x].meta.acquire)))
  }

  lemma UntouchedRefl(slots: seq<FixedSlot>)
    ensures Untouched(slots, slots)
  {
  }

  lemma UntouchedHit(now: seq<FixedSlot>, was: seq<FixedSlot>, s: nat)
    requires Untouched(now, was) && s < |now| && now[s].meta.Shareable()
    ensures now[s] == was[s] && Untouched(now[s := Acquired(now[s])], was[s := Acquired(was[s])])
  {
  }

  lemma RespectsUntouched(was: seq<FixedSlot>, now: seq<FixedSlot>)
    requires Untouched(now, was)
    ensures KeepsRefs(was, now, Neither)
  {
  }

  lemma RespectsHit(was: seq<FixedSlot>, now: seq<FixedSlot>, s: nat)
    requires s < |was| && was[s].meta.Shareable() && Untouched(now, was[s := Acquired(was[s])])
    ensures KeepsRefs(was, now, Gain(s))
  {
  }

  lemma RespectsSet(was: seq<FixedSlot>, now: seq<FixedSlot>, s: nat, e: FixedSlot, d: Deed)
    requires s < |was| && Bare(now) == Bare(was[s := e]) && RespectsAt(Items(was)[s], Items([e])[0], Change(d, s))
    requires d == Neither || d.slot == s
    ensures KeepsRefs(was, now, d)
  {
    assert KeepsRefs(was, was[s := e], d);
    RespectsBare(was, was[s := e], now, d);
  }

  ghost predicate NoneVisible(slots: seq<FixedSlot>, key: HashedKey) {
    forall x | 0 <= x < |slots| :: CellOf(slots[x]) != Entry(key, true)
  }

  lemma FoundOne(slots: seq<FixedSlot>, s: nat, key: HashedKey)
    requires s < |slots| && CellOf(slots[s]) == Entry(key, true)
    ensures !NoneVisible(slots, key)
  {
  }

  /** The first `n` probes found no visible entry with the key. */
  ghost predicate Passed(bits: nat, slots: seq<FixedSlot>, key: HashedKey, n: nat) {
    && |slots| == Pow2(bits)
    && forall i | 0 <= i < n :: CellOf(slots[Probe(bits, key, i)]) != Entry(key, true)
  }

  lemma NonePassed(bits: nat, slots: seq<FixedSlot>, key: HashedKey)
    requires |slots| == Pow2(bits)
    ensures Passed(bits, slots, key, 0)
  {
  }

  lemma PassedOne(bits: nat, slots: seq<FixedSlot>, was: seq<FixedSlot>, key: HashedKey, i: nat)
    requires Passed(bits, slots, key, i) && CellOf(slots[Probe(bits, key, i)]) != Entry(key, true)
    requires Untouched(slots, was)
    ensures var now := Strayed(slots, Probe(bits, key, i)); Passed(bits, now, key, i + 1) && Untouched(now, was)
  {
    hide Probe, Pow2;
  }

  function Acquired(s: FixedSlot): FixedSlot { s.(meta := s.meta.(acquire := s.meta.acquire + 1)) }

  /** A reference given up as used, or as if it had never been taken. */
  function Released(s: FixedSlot, useful: bool): FixedSlot
    requires s.meta.acquire > 0
  {
    s.(meta := if useful then s.meta.(release := s.meta.release + 1) else s.meta.(acquire := s.meta.acquire - 1))
  }

  function Items(slots: seq<FixedSlot>): (items: seq<Item>)
    ensures |items| == |slots|
  {
    seq(|slots|, i requires 0 <= i < |slots| => Item(slots[i].key, slots[i].charge, slots[i].meta))
  }

  /** What an operation did to the references held, see References. */
  ghost predicate KeepsRefs(was: seq<FixedSlot>, now: seq<FixedSlot>, d: Deed) {
    Respects(Items(was), Items(now), d)
  }

  lemma RespectsBare(was: seq<FixedSlot>, mid: seq<FixedSlot>, now: seq<FixedSlot>, d: Deed)
    requires KeepsRefs(was, mid, d) && Bare(now) == Bare(mid)
    ensures KeepsRefs(was, now, d)
  {
    hide Bare;
    assert |Bare(now)| == |now| && |Bare(mid)| == |mid|;
    forall x | 0 <= x < |mid| ensures Items(now)[x] == Items(mid)[x] {
      BareCell(mid, now, x);
    }
    assert Items(now) == Items(mid);
  }

  const NO_ENTRY := FixedSlot(HashedKey(0, 0), 0, EMPTY_META, 0)

  lemma CountedEmpty(bits: nat, slots: seq<FixedSlot>)
    requires |slots| == Pow2(bits) && forall x | 0 <= x < |slots| :: slots[x] == NO_ENTRY
    ensures Counted(bits, slots, NOTHING) && Settled(slots, NOBODY) && Populated(slots) == 0
  {
    hide Pow2, Dist;
    forall s | 0 <= s < |slots| ensures Count(bits, CellSpans(bits, Cells(slots)), s) == 0 {
      CountNothing(bits, CellSpans(bits, Cells(slots)), s);
    }
    NonePopulated(slots);
  }

  lemma {:induction false} NonePopulated(slots: seq<FixedSlot>)
    requires forall x | 0 <= x < |slots| :: CellOf(slots[x]) == Free
    ensures Populated(slots) == 0
  {
    if slots != [] {
      NonePopulated(slots[1..]);
    }
  }

  function Boosted(s: FixedSlot, n: nat): FixedSlot {
    s.(meta := s.meta.(acquire := s.meta.acquire + n, release := s.meta.release + n))
  }

  /** The slots without their displacement counts. */
  function Bare(slots: seq<FixedSlot>): (b: seq<FixedSlot>)
    ensures |b| == |slots|
  {
    seq(|slots|, i requires 0 <= i < |slots| => slots[i].(displacements := 0))
  }

  /** What the slots hold settles every displacement count. */
  lemma Determined(bits: nat, a: seq<FixedSlot>, b: seq<FixedSlot>)
    requires Counted(bits, a, NOTHING) && Counted(bits, b, NOTHING) && Bare(a) == Bare(b)
    ensures a == b
  {
    hide Dist, Count, Pow2, Covers;
    assert |a| == |Bare(a)| == |b|;
    forall x | 0 <= x < |a| ensures CellOf(a[x]) == CellOf(b[x])
        && a[x].(displacements := 0) == b[x].(displacements := 0) {
      assert Bare(a)[x] == Bare(b)[x];
    }
    assert Cells(a) == Cells(b);
  }

  lemma CountedNothing(bits: nat, slots: seq<FixedSlot>, key: HashedKey, i: nat)
    requires Counted(bits, slots, Span(key, i, i))
    ensures Counted(bits, slots, NOTHING)
  {
    hide Dist, Count, Pow2;
  }

  lemma CountedStart(bits: nat, slots: seq<FixedSlot>, key: HashedKey)
    requires Counted(bits, slots, NOTHING)
    ensures Counted(bits, slots, Span(key, 0, 0))
  {
    hide Dist, Count, Pow2;
  }

  /** The first `n` probes found neither room nor a match. */
  ghost predicate Skipped(bits: nat, slots: seq<FixedSlot>, key: HashedKey, n: nat) {
    && |slots| == Pow2(bits)
    && forall i | 0 <= i < n ::
        CellOf(slots[Probe(bits, key, i)]) != Free && CellOf(slots[Probe(bits, key, i)]) != Entry(key, true)
  }

  function Populated(slots: seq<FixedSlot>): nat {
    if slots == [] then 0 else (if CellOf(slots[0]) == Free then 0 else 1) + Populated(slots[1..])
  }

  lemma {:induction false} FullPopulated(slots: seq<FixedSlot>)
    requires forall x | 0 <= x < |slots| :: CellOf(slots[x]) != Free
    ensures Populated(slots) == |slots|
  {
    if slots != [] {
      FullPopulated(slots[1..]);
    }
  }

  /** A probe sequence that skipped every slot has seen the whole table. */
  lemma SkippedAll(bits: nat, slots: seq<FixedSlot>, key: HashedKey)
    requires Skipped(bits, slots, key, Pow2(bits))
    ensures Populated(slots) == |slots| && NoneVisible(slots, key)
  {
    hide Pow2, Probe;
    forall x | 0 <= x < |slots| ensures CellOf(slots[x]) != Free && CellOf(slots[x]) != Entry(key, true) {
      var i := Dist(bits, key, x);
    }
    FullPopulated(slots);
  }

  lemma SkippedOne(bits: nat, slots: seq<FixedSlot>, key: HashedKey, i: nat)
    requires Skipped(bits, slots, key, i) && i < Pow2(bits)
    requires CellOf(slots[Probe(bits, key, i)]) != Free && CellOf(slots[Probe(bits, key, i)]) != Entry(key, true)
    ensures Skipped(bits, slots, key, i + 1)
  {
    hide Pow2, Probe;
  }

  class Table {
    const bits: nat
    const slots: array<FixedSlot>
    var clock: nat

    ghost predicate Shaped(extra: Span, owned: int)
      reads slots
    {
      slots.Length == Pow2(bits) && Settled(slots[..], owned) && Counted(bits, slots[..], extra)
    }

    ghost predicate Valid()
      reads slots
    {
      Shaped(NOTHING, NOBODY)
    }

    constructor (bits: nat)
      ensures Valid() && this.bits == bits && fresh(slots) && Populated(slots[..]) == 0
    {
      this.bits := bits;
      slots := new FixedSlot[Pow2(bits)](_ => NO_ENTRY);
      clock := 0;
      new;
      CountedEmpty(bits, slots[..]);
    }

    /** Replaces a metadata word without filling or vacating the slot. */
    method SetMeta(s: nat, m: Meta, ghost extra: Span, ghost owned: int)
      requires Shaped(extra, owned) && s < slots.Length && s != owned && m.Shareable() == slots[s].meta.Shareable()
      requires m.state.Empty? || (m.Shareable() && m.release <= m.acquire)
      modifies slots
      ensures Shaped(extra, owned) && slots[..] == WithWord(old(slots[..]), s, m)
    {
      hide Counted;
      CountedMeta(bits, slots[..], extra, s, m);
      slots[s] := slots[s].(meta := m);
      assert slots[..] == WithWord(old(slots[..]), s, m);
    }

    /** One slot of a search: an optimistic reference, kept only on a visible entry with the key. */
    method MatchAndRef(s: nat, key: HashedKey) returns (hit: bool)
      requires Valid() && s < slots.Length
      modifies slots
      ensures Valid() && hit == (CellOf(old(slots[s])) == Entry(key, true))
      ensures slots[..] == if hit then old(slots[..])[s := Acquired(old(slots[s]))] else Strayed(old(slots[..]), s)
    {
      hide Counted, Settled;
      var h := slots[s];
      SlotSettled(slots[..], s);
      SetMeta(s, h.meta.(acquire := h.meta.acquire + 1), NOTHING, NOBODY);
      hit := h.meta.state.Visible? && h.key == key;
      if !hit && h.meta.Shareable() {
        SetMeta(s, h.meta, NOTHING, NOBODY);
      }
    }

    /** Finds a visible entry with the key and takes a reference to it. */
    method Lookup(key: HashedKey) returns (found: int)
      requires Valid()
      modifies slots
      ensures Valid() && -1 <= found < slots.Length
      ensures found == -1 <==> NoneVisible(old(slots[..]), key)
      ensures found >= 0 ==> CellOf(old(slots[found])) == Entry(key, true)
      ensures Untouched(slots[..], if found < 0 then old(slots[..])
          else old(slots[..])[found := Acquired(old(slots[found]))])
      ensures KeepsRefs(old(slots[..]), slots[..], if found < 0 then Neither else Gain(found))
    {
      hide Counted, Settled, Probe, Pow2, Wrap, Increment, Untouched, NoneVisible, Passed;
      NextProbe(bits, key, 0);
      UntouchedRefl(slots[..]);
      NonePassed(bits, slots[..], key);
      var current, i := Wrap(bits, key.lo), 0;
      while true
        invariant Valid() && i < Pow2(bits) && current == Probe(bits, key, i)
        invariant Untouched(slots[..], old(slots[..])) && Passed(bits, slots[..], key, i)
        decreases Pow2(bits) - i
      {
        NextProbe(bits, key, i);
        ghost var before := slots[..];
        var hit := MatchAndRef(current, key);
        if hit {
          UntouchedHit(before, old(slots[..]), current);
          SlotSettled(old(slots[..]), current);
          RespectsHit(old(slots[..]), slots[..], current);
          FoundOne(old(slots[..]), current, key);
          return current;
        }
        PassedOne(bits, before, old(slots[..]), key, i);
        if slots[current].displacements == 0 {
          NoneBeyond(bits, slots[..], key, i + 1);
          NoneBefore(slots[..], old(slots[..]), key);
          RespectsUntouched(old(slots[..]), slots[..]);
          return -1;
        }
        current := Wrap(bits, current + Increment(key));
        i := i + 1;
        if current == Wrap(bits, key.lo) {
          NoneBeyond(bits, slots[..], key, i);
          NoneBefore(slots[..], old(slots[..]), key);
          RespectsUntouched(old(slots[..]), slots[..]);
          return -1;
        }
      }
    }

    /** Un-counts every probe of the key before slot `h`. */
    method Rollback(key: HashedKey, h: nat, ghost upto: nat, ghost owned: int)
      requires upto < Pow2(bits) && h == Probe(bits, key, upto) && Shaped(Span(key, 0, upto), owned)
      modifies slots
      ensures Shaped(NOTHING, owned) && Bare(slots[..]) == Bare(old(slots[..]))
    {
      hide Counted, Settled, Probe, Pow2, Wrap, Increment, Bare;
      NextProbe(bits, key, 0);
      ghost var i := 0;
      var current := Wrap(bits, key.lo);
      while current != h
        invariant i <= upto && current == Probe(bits, key, i)
        invariant Shaped(Span(key, i, upto), owned) && Bare(slots[..]) == Bare(old(slots[..]))
        decreases upto - i
      {
        CountedUndo(bits, slots[..], key, i, upto);
        SettledCount(slots[..], owned, current, slots[current].displacements - 1);
        ghost var now := WithCount(slots[..], current, slots[current].displacements - 1);
        slots[current] := slots[current].(displacements := slots[current].displacements - 1);
        assert slots[..] == now;
        NextProbe(bits, key, i);
        current := Wrap(bits, current + Increment(key));
        i := i + 1;
      }
      if i < upto {
        ProbesDiffer(bits, key, i, upto);
        assert false;
      }
      CountedNothing(bits, slots[..], key, upto);
    }

    /** TryInsert on one slot: fill it if empty, else report (and boost) a match. */
    method TryInsert(s: nat, key: HashedKey, charge: nat, countdown: nat, keepRef: bool, ghost extra: Span)
      returns (inserted: bool, matches: bool)
      requires Shaped(extra, NOBODY) && s < slots.Length && 1 <= countdown <= MAX_COUNTDOWN
      requires extra == CellSpan(bits, Entry(key, true), s)
      modifies slots
      ensures inserted == (CellOf(old(slots[s])) == Free) && matches == (CellOf(old(slots[s])) == Entry(key, true))
      ensures Shaped(if inserted then NOTHING else extra, NOBODY)
      ensures slots[..] ==
        if inserted then old(slots[..])[s := NewEntry(key, charge, countdown, keepRef, old(slots[s].displacements))]
        else if matches then old(slots[..])[s := Boosted(old(slots[s]), countdown)] else old(slots[..])
    {
      hide Counted, Settled, Pow2, Dist;
      var h := slots[s];
      SlotSettled(slots[..], s);
      inserted, matches := h.meta.state.Empty?, false;
      if inserted {
        var e := NewEntry(key, charge, countdown, keepRef, h.displacements);
        CountedTrade(bits, slots[..], extra, s, e, NOTHING);
        SettledFill(slots[..], s, e);
        slots[s] := e;
        assert slots[..] == old(slots[..])[s := e];
      } else if h.meta.state.Visible? {
        SetMeta(s, h.meta.(acquire := h.meta.acquire + countdown), extra, NOBODY);
        if h.key == key {
          SetMeta(s, Boosted(h, countdown).meta, extra, NOBODY);
          matches := true;
        } else {
          SetMeta(s, h.meta, extra, NOBODY);
        }
      }
    }

    /** Inserts the entry in the first empty slot of its probe sequence, unless a match comes first. */
    method DoInsert(key: HashedKey, charge: nat, countdown: nat, keepRef: bool)
        returns (e: int, matches: bool, ghost n: nat)
      requires Valid() && 1 <= countdown <= MAX_COUNTDOWN
      modifies slots
      ensures Valid() && Skipped(bits, old(slots[..]), key, n) && n <= Pow2(bits)
      // inserted: the slot was free and holds the entry now
      ensures e >= 0 ==> n < Pow2(bits) && e == Probe(bits, key, n) && CellOf(old(slots[e])) == Free && !matches
      ensures e >= 0 ==> slots[e].key == key && slots[e].charge == charge && slots[e].meta.state.Visible?
      ensures e >= 0 ==> slots[e].meta.acquire == countdown && !slots[e].meta.hit
      ensures e >= 0 ==> slots[e].meta.Refcount() == (if keepRef then 1 else 0)
      ensures e >= 0 ==> Bare(slots[..]) == Bare(old(slots[..]))[e := slots[e].(displacements := 0)]
      // skipped: a visible match was there and got a boost
      ensures matches ==> n < Pow2(bits) && CellOf(old(slots[Probe(bits, key, n)])) == Entry(key, true) && e == -1
      ensures matches ==> var s := Probe(bits, key, n);
        && slots[..] == old(slots[..])[s := old(slots[s]).(meta := slots[s].meta)]
        && slots[s].meta.acquire == old(slots[s]).meta.acquire + countdown
        && slots[s].meta.release == old(slots[s]).meta.release + countdown
        && slots[s].meta.state == old(slots[s]).meta.state && slots[s].meta.hit == old(slots[s]).meta.hit
      // neither: every slot was populated, and nothing has changed
      ensures e < 0 && !matches ==>
          slots[..] == old(slots[..]) && Populated(slots[..]) == Pow2(bits) && NoneVisible(slots[..], key)
      ensures KeepsRefs(old(slots[..]), slots[..], Neither)
    {
      hide Counted, Settled, Probe, Pow2, Wrap, Increment, Bare, Skipped, CellOf, NoneVisible, Populated;
      NextProbe(bits, key, 0);
      CountedStart(bits, slots[..], key);
      NoneSkipped(bits, slots[..], key);
      n := 0;
      var current := Wrap(bits, key.lo);
      while true
        invariant n < Pow2(bits) && current == Probe(bits, key, n) && Shaped(Span(key, 0, n), NOBODY)
        invariant Bare(slots[..]) == Bare(old(slots[..])) && Skipped(bits, old(slots[..]), key, n)
        decreases Pow2(bits) - n
      {
        NextProbe(bits, key, n);
        DistIs(bits, key, n);
        BareCell(slots[..], old(slots[..]), current);
        ghost var before := slots[..];
        var inserted;
        inserted, matches := TryInsert(current, key, charge, countdown, keepRef, Span(key, 0, n));
        if inserted {
          BareSet(before, current, NewEntry(key, charge, countdown, keepRef, before[current].displacements));
          InsertRespects(old(slots[..]), slots[..], current, slots[current]);
          return current, false, n;
        }
        if matches {
          Rollback(key, current, n, NOBODY);
          BareSet(before, current, Boosted(before[current], countdown));
          BareSet(old(slots[..]), current, Boosted(old(slots[current]), countdown));
          BoostKeeps(bits, old(slots[..]), current, countdown);
          Determined(bits, slots[..], old(slots[..])[current := Boosted(old(slots[current]), countdown)]);
          RespectsSet(old(slots[..]), slots[..], current, Boosted(old(slots[current]), countdown), Neither);
          return -1, true, n;
        }
        SkippedOne(bits, old(slots[..]), key, n);
        var next := Wrap(bits, current + Increment(key));
        if next == Wrap(bits, key.lo) {
          Rollback(key, current, n, NOBODY);
          Determined(bits, slots[..], old(slots[..]));
          SkippedAll(bits, old(slots[..]), key);
          return -1, false, n + 1;
        }
        CountedBump(bits, slots[..], key, n);
        SettledCount(slots[..], NOBODY, current, slots[current].displacements + 1);
        ghost var now := WithCount(slots[..], current, slots[current].displacements + 1);
        slots[current] := slots[current].(displacements := slots[current].displacements + 1);
        assert slots[..] == now;
        n := n + 1;
        current := next;
      }
    }

    /** Takes an entry off the table for freeing; the caller now owns the slot. */
    method Take(s: nat, hit: bool)
      requires Valid() && s < slots.Length && slots[s].meta.Shareable()
      modifies slots
      ensures Shaped(CellSpan(bits, CellOf(old(slots[s])), s), s)
      ensures slots[..] == WithWord(old(slots[..]), s, Meta(0, 0, hit, Construction))
    {
      hide Counted, Pow2, Dist;
      var h := slots[s].(meta := Meta(0, 0, hit, Construction));
      CountedTrade(bits, slots[..], NOTHING, s, h, CellSpan(bits, CellOf(slots[s]), s));
      slots[s] := h;
      assert slots[..] == old(slots[..])[s := h];
    }

    method MarkEmpty(s: nat, ghost extra: Span)
      requires s < slots.Length && Shaped(extra, s)
      modifies slots
      ensures Shaped(extra, NOBODY) && slots[..] == WithWord(old(slots[..]), s, EMPTY_META)
    {
      hide Counted, Pow2, Dist;
      CountedMeta(bits, slots[..], extra, s, EMPTY_META);
      slots[s] := slots[s].(meta := EMPTY_META);
      assert slots[..] == WithWord(old(slots[..]), s, EMPTY_META);
    }

    /** Gives up a reference; the last one to an invisible entry, or on request, frees the entry. */
    method Release(s: nat, useful: bool, eraseIfLast: bool) returns (freed: bool)
      requires Valid() && s < slots.Length && slots[s].meta.Shareable() && slots[s].meta.Refcount() > 0
      modifies slots
      ensures Valid()
      ensures freed <==> (eraseIfLast || old(slots[s]).meta.state.Invisible?) && old(slots[s]).meta.Refcount() == 1
      ensures Bare(slots[..]) == Bare(old(slots[..])[s := if freed then old(slots[s]).(meta := EMPTY_META)
          else Released(old(slots[s]), useful)])
      ensures !freed ==> slots[s].meta.state == old(slots[s]).meta.state && slots[s].meta.hit == old(slots[s]).meta.hit
      ensures !freed ==> slots[s].meta.acquire == old(slots[s]).meta.acquire - (if useful then 0 else 1)
      ensures !freed ==> slots[s].meta.release == old(slots[s]).meta.release + (if useful then 1 else 0)
      ensures KeepsRefs(old(slots[..]), slots[..], Loss(s))
    {
      hide Counted, Settled, Probe, Pow2, Bare;
      var m, key := slots[s].meta, slots[s].key;
      SlotSettled(slots[..], s);
      SetMeta(s, Released(slots[s], useful).meta, NOTHING, NOBODY);
      freed := (eraseIfLast || m.state.Invisible?) && slots[s].meta.Refcount() == 0;
      if freed {
        ghost var upto := Dist(bits, key, s);
        Take(s, false);
        BareSet(old(slots[..]), s, slots[s]);
        ghost var mid := slots[..];
        assert mid == old(slots[..])[s := mid[s]];
        Rollback(key, s, upto, s);
        BareCell(slots[..], mid, s);
        ghost var late := slots[..];
        MarkEmpty(s, NOTHING);
        BareSet(late, s, late[s].(meta := EMPTY_META));
        BareSet(old(slots[..]), s, old(slots[s]).(meta := EMPTY_META));
        assert Bare(slots[..]) == Bare(old(slots[..]))[s := old(slots[s]).(meta := EMPTY_META, displacements := 0)];
      }
      RespectsSet(old(slots[..]), slots[..], s,
          if freed then old(slots[s]).(meta := EMPTY_META) else Released(old(slots[s]), useful), Loss(s));
    }

    /** One slot of Erase: a visible match is freed, or made invisible while others refer to it. */
    method EraseAt(key: HashedKey, s: nat, ghost i: nat)
      requires Valid() && i < Pow2(bits) && s == Probe(bits, key, i)
      modifies slots
      ensures Valid()
      ensures Bare(slots[..]) ==
        if CellOf(old(slots[s])) == Entry(key, true) then Bare(old(slots[..])[s := Erased(old(slots[s]))])
        else Bare(Strayed(old(slots[..]), s))
    {
      hide Counted, Settled, Probe, Pow2, Bare;
      var hit := MatchAndRef(s, key);
      if hit {
        var m := slots[s].meta;
        SlotSettled(old(slots[..]), s);
        if m.Refcount() > 1 {
          SetMeta(s, m.(state := Invisible), NOTHING, NOBODY);
          SetMeta(s, m.(state := Invisible, acquire := m.acquire - 1), NOTHING, NOBODY);
          assert slots[..] == old(slots[..])[s := Erased(old(slots[s]))];
        } else {
          DistIs(bits, key, i);
          Take(s, false);
          MarkEmpty(s, Span(key, 0, i));
          assert slots[..] == old(slots[..])[s := Erased(old(slots[s]))];
          Rollback(key, s, i, NOBODY);
        }
      }
    }

    /** Makes every entry with the key unreachable to lookups. */
    method Erase(key: HashedKey)
      requires Valid()
      modifies slots
      ensures Valid() && NoneVisible(slots[..], key) && ErasedFrom(slots[..], old(slots[..]), key)
      ensures KeepsRefs(old(slots[..]), slots[..], Neither)
    {
      hide Counted, Settled, Probe, Pow2, Wrap, Increment, Bare, NoneVisible, Passed, ErasedFrom, ErasedSome, CellOf,
          Strayed, Erased;
      NextProbe(bits, key, 0);
      ErasedNone(slots[..], key);
      NonePassed(bits, slots[..], key);
      var current, i := Wrap(bits, key.lo), 0;
      while true
        invariant Valid() && i < Pow2(bits) && current == Probe(bits, key, i)
        invariant ErasedSome(slots[..], old(slots[..]), key) && Passed(bits, slots[..], key, i)
        decreases Pow2(bits) - i
      {
        NextProbe(bits, key, i);
        ghost var before := slots[..];
        EraseAt(key, current, i);
        EraseStep(bits, before, slots[..], old(slots[..]), key, i);
        if slots[current].displacements == 0 {
          NoneBeyond(bits, slots[..], key, i + 1);
          break;
        }
        current := Wrap(bits, current + Increment(key));
        i := i + 1;
        if current == Wrap(bits, key.lo) {
          NoneBeyond(bits, slots[..], key, i);
          break;
        }
      }
      ErasedEach(slots[..], old(slots[..]), key);
      ErasedRespects(slots[..], old(slots[..]), key);
    }

    /** ClockUpdate on one slot, with the removal of an expired entry. */
    method UpdateAt(s: nat, data: EvictionData) returns (after: EvictionData)
      requires Valid() && s < slots.Length
      modifies slots
      ensures Valid() && Bare(slots[..]) == Bare(old(slots[..]))[s := ClockStep(old(slots[s]).(displacements := 0))]
      ensures after == Tally(data, old(slots[s]))
    {
      hide Counted, Settled, Probe, Pow2, Bare;
      var m, key := slots[s].meta, slots[s].key;
      SlotSettled(slots[..], s);
      BareSame(slots[..], s);
      if !m.Shareable() {
        return data;
      }
      if m.acquire != m.release {
        return data.(seenPinned := data.seenPinned + 1);
      }
      if m.state.Visible? && m.acquire > 0 {
        var n := if m.acquire - 1 < MAX_COUNTDOWN - 1 then m.acquire - 1 else MAX_COUNTDOWN - 1;
        SetMeta(s, m.(acquire := n, release := n), NOTHING, NOBODY);
        BareSet(old(slots[..]), s, slots[s]);
        return data;
      }
      after := data.(freedCharge := data.freedCharge + slots[s].charge, freedCount := data.freedCount + 1);
      ghost var upto := Dist(bits, key, s);
      Take(s, m.hit);
      BareSet(old(slots[..]), s, slots[s]);
      ghost var mid := slots[..];
      Rollback(key, s, upto, s);
      BareCell(slots[..], mid, s);
      ghost var late := slots[..];
      MarkEmpty(s, NOTHING);
      BareSet(late, s, late[s].(meta := EMPTY_META));
      ghost var gone := late[s].(meta := EMPTY_META, displacements := 0);
      assert gone == ClockStep(old(slots[s]).(displacements := 0));
      assert Bare(slots[..]) == Bare(late)[s := gone] == Bare(old(slots[..]))[s := gone];
    }

    /** One eviction run: clock updates in batches of four from the shared clock pointer. `ledger` is what
        had been achieved after each batch. */
    method Evict(requested: nat, effortCap: nat, before: EvictionData)
      returns (data: EvictionData, stop: Stop, ghost ledger: seq<EvictionData>)
      requires Valid() && bits <= 32 && requested > 0
      modifies slots, this`clock
      ensures Valid() && Rolled(slots[..], old(slots[..]), old(clock), clock)
      ensures KeepsRefs(old(slots[..]), slots[..], Neither)
      ensures data.freedCharge - before.freedCharge == Charges(old(slots[..])) - Charges(slots[..])
      ensures data.freedCount - before.freedCount == Populated(old(slots[..])) - Populated(slots[..])
      // the run goes on exactly until a batch gives a reason to stop
      ensures ledger != [] && data == ledger[|ledger| - 1] && clock == old(clock) + STEP * |ledger|
      ensures Booked(old(slots[..]), old(clock), before, ledger)
      ensures forall i | 0 <= i < |ledger| - 1 :: WorthGoingOn(ledger[i], requested, effortCap)
      ensures STEP * (|ledger| - 2) < 3 * slots.Length
      ensures stop == Enough <==> data.freedCharge >= requested
      ensures stop == ClockBound ==> clock >= old(clock) + 3 * slots.Length && AllExpired(slots[..], old(slots[..]))
      ensures stop == EffortCap ==>
          STEP * (|ledger| - 1) < 3 * slots.Length && !WorthGoingOn(data, requested, effortCap)
    {
      hide Counted, Settled, Probe, Pow2, Wrap, Bare, Rolled, AllExpired, Charges, Populated, ClockStep, Tick, Tally;
      hide Booked, PinnedMet;
      var p := clock;
      clock := clock + STEP;
      var last := p + MAX_COUNTDOWN * slots.Length;
      data, ledger := before, [];
      RolledNone(slots[..], p);
      BookedNone(slots[..], p, before);
      while true
        invariant Valid() && clock == p + STEP && old(clock) <= p < last + STEP && p == old(clock) + STEP * |ledger|
        invariant Rolled(slots[..], old(slots[..]), old(clock), p) && Booked(old(slots[..]), old(clock), before, ledger)
        invariant forall i | 0 <= i < |ledger| :: WorthGoingOn(ledger[i], requested, effortCap)
        invariant data.seenPinned == before.seenPinned + PinnedMet(old(slots[..]), old(clock), p)
        invariant data.freedCharge + Charges(slots[..]) == before.freedCharge + Charges(old(slots[..]))
        invariant data.freedCount + Populated(slots[..]) == before.freedCount + Populated(old(slots[..]))
        decreases last + STEP - p
      {
        for i := 0 to STEP
          invariant Valid() && clock == p + STEP && Rolled(slots[..], old(slots[..]), old(clock), p + i)
          invariant data.seenPinned == before.seenPinned + PinnedMet(old(slots[..]), old(clock), p + i)
          invariant data.freedCharge + Charges(slots[..]) == before.freedCharge + Charges(old(slots[..]))
          invariant data.freedCount + Populated(slots[..]) == before.freedCount + Populated(old(slots[..]))
        {
          var s := Wrap(bits, Lower32(p + i));
          Low32(bits, p + i);
          ghost var mid := slots[..];
          data := UpdateAt(s, data);
          RolledOne(mid, slots[..], old(slots[..]), old(clock), p + i, s);
          TallyStep(mid, slots[..], s);
          TallyPinned(mid, old(slots[..]), old(clock), p + i, s);
        }
        BookedOne(old(slots[..]), old(clock), before, ledger, data);
        ledger := ledger + [data];
        RolledRespects(slots[..], old(slots[..]), old(clock), clock);
        if data.freedCharge >= requested {
          return data, Enough, ledger;
        }
        if p >= last {
          RolledExpired(slots[..], old(slots[..]), old(clock), clock);
          return data, ClockBound, ledger;
        }
        if (data.freedCount + 1) * effortCap <= data.seenPinned {
          return data, EffortCap, ledger;
        }
        p := clock;
        clock := clock + STEP;
      }
    }
  }

  // ---------------------------------------------------------------------------------------
  // Eviction on values

  function Lower32(x: nat): nat { x % 0x1_0000_0000 }

  /** ClockUpdate's effect on a slot when nobody interferes. */
  function ClockStep(s: FixedSlot): FixedSlot { s.(meta := Tick(s.meta)) }

  function ClockSteps(s: FixedSlot, k: nat): FixedSlot { s.(meta := Ticks(s.meta, k)) }

  function Tally(data: EvictionData, s: FixedSlot): EvictionData {
    if !s.meta.Shareable() then data
    else if s.meta.Refcount() != 0 then data.(seenPinned := data.seenPinned + 1)
    else if CellOf(ClockStep(s)) != Free then data
    else data.(freedCharge := data.freedCharge + s.charge, freedCount := data.freedCount + 1)
  }

  function ChargeOf(s: FixedSlot): nat { if CellOf(s) == Free then 0 else s.charge }

  function Charges(slots: seq<FixedSlot>): nat {
    if slots == [] then 0 else ChargeOf(slots[0]) + Charges(slots[1..])
  }

  lemma {:induction false} SumsUpdate(slots: seq<FixedSlot>, x: nat, s: FixedSlot)
    requires x < |slots|
    ensures Charges(slots[x := s]) == Charges(slots) - ChargeOf(slots[x]) + ChargeOf(s)
    ensures Populated(slots[x := s])
         == Populated(slots) - (if CellOf(slots[x]) == Free then 0 else 1) + if CellOf(s) == Free then 0 else 1
  {
    var u := slots[x := s];
    if x == 0 {
      assert u[1..] == slots[1..];
    } else {
      assert u[1..] == slots[1..][x - 1 := s];
      SumsUpdate(slots[1..], x - 1, s);
    }
  }

  lemma {:induction false} SumsBare(slots: seq<FixedSlot>)
    ensures Charges(Bare(slots)) == Charges(slots) && Populated(Bare(slots)) == Populated(slots)
  {
    if slots != [] {
      assert Bare(slots)[1..] == Bare(slots[1..]);
      SumsBare(slots[1..]);
    }
  }

  /** What a clock update takes off the sums is what it tallies. */
  lemma TallyStep(mid: seq<FixedSlot>, now: seq<FixedSlot>, s: nat)
    requires s < |mid| && Bare(now) == Bare(mid)[s := ClockStep(mid[s].(displacements := 0))]
    ensures forall d: EvictionData {:trigger Tally(d, mid[s])} ::
      && Tally(d, mid[s]).freedCharge + Charges(now) == d.freedCharge + Charges(mid)
      && Tally(d, mid[s]).freedCount + Populated(now) == d.freedCount + Populated(mid)
  {
    SumsBare(mid);
    SumsBare(now);
    SumsUpdate(Bare(mid), s, ClockStep(mid[s].(displacements := 0)));
  }

  /** How many referenced entries the clock comes by between the two values. */
  function PinnedMet(slots: seq<FixedSlot>, start: nat, p: nat): nat
    requires slots != [] && start <= p
  {
    if start == p then 0
    else PinnedMet(slots, start, p - 1) + if Pinned(slots[(p - 1) % |slots|].meta) then 1 else 0
  }

  /** After each batch, the referenced entries met are those the clock came by. */
  ghost predicate Booked(was: seq<FixedSlot>, start: nat, before: EvictionData, ledger: seq<EvictionData>) {
    was != [] && forall i | 0 <= i < |ledger| ::
      ledger[i].seenPinned == before.seenPinned + PinnedMet(was, start, start + STEP * (i + 1))
  }

  lemma BookedNone(was: seq<FixedSlot>, start: nat, before: EvictionData)
    requires was != []
    ensures Booked(was, start, before, []) && PinnedMet(was, start, start) == 0
  {
  }

  lemma BookedOne(was: seq<FixedSlot>, start: nat, before: EvictionData, ledger: seq<EvictionData>, d: EvictionData)
    requires Booked(was, start, before, ledger)
    requires d.seenPinned == before.seenPinned + PinnedMet(was, start, start + STEP * (|ledger| + 1))
    ensures Booked(was, start, before, ledger + [d])
  {
    hide PinnedMet;
  }

  /** A run never changes which entries are referenced, so a clock update meets one if it was one before. */
  lemma TallyPinned(mid: seq<FixedSlot>, was: seq<FixedSlot>, start: nat, p: nat, s: nat)
    requires Rolled(mid, was, start, p) && s < |mid| && s == p % |mid|
    ensures PinnedMet(was, start, p + 1) == PinnedMet(was, start, p) + if Pinned(was[s].meta) then 1 else 0
    ensures forall d: EvictionData {:trigger Tally(d, mid[s])} ::
      Tally(d, mid[s]).seenPinned == d.seenPinned + if Pinned(was[s].meta) then 1 else 0
  {
    hide Turns, Ticks;
    assert RolledAt(mid[s], was[s], |mid|, start, p, s);
    StaysPinned(was[s].meta, Turns(|mid|, p, s) - Turns(|mid|, start, s));
  }

  lemma RolledRespects(now: seq<FixedSlot>, was: seq<FixedSlot>, start: nat, p: nat)
    requires Rolled(now, was, start, p)
    ensures KeepsRefs(was, now, Neither)
  {
    forall x | 0 <= x < |was| ensures RespectsAt(Items(was)[x], Items(now)[x], 0) {
      hide Turns, Ticks;
      assert RolledAt(now[x], was[x], |now|, start, p, x);
      if was[x].meta.Shareable() {
        LifeIsExact(was[x].meta, Turns(|now|, p, x) - Turns(|now|, start, x));
      }
    }
  }

  /** Every slot has had a clock update for each of its turns between the two clock values. */
  ghost predicate Rolled(now: seq<FixedSlot>, was: seq<FixedSlot>, start: nat, p: nat) {
    && |now| == |was| && start <= p
    && forall x | 0 <= x < |now| :: RolledAt(now[x], was[x], |now|, start, p, x)
  }

  ghost predicate RolledAt(now: FixedSlot, was: FixedSlot, n: nat, start: nat, p: nat, x: nat)
    requires x < n && start <= p
  {
    && Turns(n, start, x) <= Turns(n, p, x)
    && now.(displacements := 0) == ClockSteps(was.(displacements := 0), Turns(n, p, x) - Turns(n, start, x))
  }

  lemma RolledNone(slots: seq<FixedSlot>, start: nat)
    ensures Rolled(slots, slots, start, start)
  {
  }

  lemma RolledOne(mid: seq<FixedSlot>, now: seq<FixedSlot>, was: seq<FixedSlot>, start: nat, p: nat, s: nat)
    requires Rolled(mid, was, start, p) && s < |mid| && s == p % |mid|
    requires Bare(now) == Bare(mid)[s := ClockStep(mid[s].(displacements := 0))]
    ensures Rolled(now, was, start, p + 1)
  {
    assert |Bare(now)| == |now| && |Bare(mid)| == |mid|;
    forall x | 0 <= x < |now| ensures RolledAt(now[x], was[x], |now|, start, p + 1, x) {
      hide Turns, Tick;
      assert RolledAt(mid[x], was[x], |now|, start, p, x);
      assert Bare(now)[x] == if x == s then ClockStep(mid[s].(displacements := 0)) else mid[x].(displacements := 0);
      TurnsStep(|now|, p, x);
    }
  }

  lemma Low32(bits: nat, x: nat)
    requires bits <= 32
    ensures Wrap(bits, Lower32(x)) == x % Pow2(bits)
  {
    assert Pow2(32) == 0x1_0000_0000 by {
      assert Pow2(8) == 256;
      Pow2Adds(8, 8);
      Pow2Adds(16, 16);
    }
    ModPow2Nested(x, bits, 32);
  }

  /** Every entry that was unreferenced, and invisible or below the maximum countdown, is gone. */
  ghost predicate AllExpired(now: seq<FixedSlot>, was: seq<FixedSlot>) {
    && |now| == |was|
    && forall x | 0 <= x < |now| :: GoneAt(now[x], was[x])
  }

  ghost predicate GoneAt(now: FixedSlot, was: FixedSlot) {
    was.meta.Shareable() && was.meta.Refcount() == 0 && (was.meta.state.Invisible? || was.meta.acquire < MAX_COUNTDOWN)
    ==> CellOf(now) == Free
  }

  lemma RolledExpired(now: seq<FixedSlot>, was: seq<FixedSlot>, start: nat, p: nat)
    requires Rolled(now, was, start, p) && p >= start + 3 * |now|
    ensures AllExpired(now, was)
  {
    hide RolledAt, GoneAt;
    forall x | 0 <= x < |now| ensures GoneAt(now[x], was[x]) {
      RolledGoneAt(now[x], was[x], |now|, start, p, x);
    }
  }

  lemma RolledGoneAt(now: FixedSlot, was: FixedSlot, n: nat, start: nat, p: nat, x: nat)
    requires x < n && start <= p && RolledAt(now, was, n, start, p, x) && p >= start + 3 * n
    ensures GoneAt(now, was)
  {
    hide Turns, Ticks;
    TurnsTimes(n, start, p, x, 3);
    if was.meta.Shareable() {
      LifeIsExact(was.meta, Turns(n, p, x) - Turns(n, start, x));
    }
  }

  /** What insertion gives an entry to live on: referenced it stays; else it survives as many turns of the
      clock as the countdown it was given. */
  lemma InsertedLife(now: seq<FixedSlot>, was: seq<FixedSlot>, start: nat, p: nat, x: nat, countdown: nat,
      keepRef: bool)
    requires Rolled(now, was, start, p) && x < |was| && 1 <= countdown <= MAX_COUNTDOWN
    requires was[x].meta.state.Visible? && was[x].meta.acquire == countdown
    requires was[x].meta.Refcount() == if keepRef then 1 else 0
    ensures CellOf(now[x]) == Free <==> !keepRef && Turns(|now|, p, x) - Turns(|now|, start, x) > countdown
  {
    hide Turns, Ticks;
    assert RolledAt(now[x], was[x], |now|, start, p, x);
    LifeIsExact(was[x].meta, Turns(|now|, p, x) - Turns(|now|, start, x));
  }

  lemma BareSame(a: seq<FixedSlot>, x: nat)
    requires x < |a|
    ensures Bare(a) == Bare(a)[x := a[x].(displacements := 0)]
  {
  }

  /** Erase's effect on one visible match. */
  function Erased(s: FixedSlot): FixedSlot {
    if s.meta.Refcount() > 0 then s.(meta := s.meta.(state := Invisible)) else s.(meta := EMPTY_META)
  }

  /** Equal but for the displacement count and, on a slot holding nothing, stray acquire counts. */
  ghost predicate Alike(a: FixedSlot, b: FixedSlot) {
    || a == b.(displacements := a.displacements)
    || (!b.meta.Shareable() && a == b.(displacements := a.displacements, meta := b.meta.(acquire := a.meta.acquire)))
  }

  ghost predicate ErasedSome(now: seq<FixedSlot>, was: seq<FixedSlot>, key: HashedKey) {
    && |now| == |was|
    && forall x | 0 <= x < |now| ::
         Alike(now[x], was[x]) || (CellOf(was[x]) == Entry(key, true) && Alike(now[x], Erased(was[x])))
  }

  /** Every visible entry with the key is gone or invisible; every other slot holds what it held. */
  ghost predicate ErasedFrom(now: seq<FixedSlot>, was: seq<FixedSlot>, key: HashedKey) {
    && |now| == |was|
    && forall x | 0 <= x < |now| :: Alike(now[x], if CellOf(was[x]) == Entry(key, true) then Erased(was[x]) else was[x])
  }

  lemma ErasedNone(slots: seq<FixedSlot>, key: HashedKey)
    ensures ErasedSome(slots, slots, key)
  {
  }

  lemma ErasedEach(now: seq<FixedSlot>, was: seq<FixedSlot>, key: HashedKey)
    requires ErasedSome(now, was, key) && NoneVisible(now, key)
    ensures ErasedFrom(now, was, key)
  {
  }

  lemma ErasedRespects(now: seq<FixedSlot>, was: seq<FixedSlot>, key: HashedKey)
    requires ErasedFrom(now, was, key)
    ensures KeepsRefs(was, now, Neither)
  {
    forall x | 0 <= x < |was| ensures RespectsAt(Items(was)[x], Items(now)[x], 0) {
      assert Alike(now[x], if CellOf(was[x]) == Entry(key, true) then Erased(was[x]) else was[x]);
    }
  }

  /** One slot's part in EraseStep. */
  lemma EraseStepAt(b: FixedSlot, n: FixedSlot, w: FixedSlot, key: HashedKey, here: bool)
    requires Alike(b, w) || (CellOf(w) == Entry(key, true) && Alike(b, Erased(w)))
    requires n == (if !here then b
        else if CellOf(b) == Entry(key, true) then Erased(b)
        else if b.meta.Shareable() then b else Acquired(b)).(displacements := n.displacements)
    ensures Alike(n, w) || (CellOf(w) == Entry(key, true) && Alike(n, Erased(w)))
    ensures CellOf(n) == if here && CellOf(b) == Entry(key, true) then CellOf(Erased(b)) else CellOf(b)
  {
  }

  lemma EraseStep(bits: nat, before: seq<FixedSlot>, now: seq<FixedSlot>, was: seq<FixedSlot>, key: HashedKey, i: nat)
    requires ErasedSome(before, was, key) && Passed(bits, before, key, i)
    requires var s := Probe(bits, key, i);
      Bare(now) == if CellOf(before[s]) == Entry(key, true) then Bare(before[s := Erased(before[s])])
          else Bare(Strayed(before, s))
    ensures ErasedSome(now, was, key) && Passed(bits, now, key, i + 1)
  {
    hide Pow2, Probe, Bare, Alike;
    var s := Probe(bits, key, i);
    var mid := if CellOf(before[s]) == Entry(key, true) then before[s := Erased(before[s])] else Strayed(before, s);
    forall x | 0 <= x < |now|
      ensures Alike(now[x], was[x]) || (CellOf(was[x]) == Entry(key, true) && Alike(now[x], Erased(was[x])))
      ensures CellOf(now[x]) == if x == s && CellOf(before[x]) == Entry(key, true) then CellOf(Erased(before[x]))
          else CellOf(before[x])
    {
      hide CellOf, Erased;
      BareCell(now, mid, x);
      EraseStepAt(before[x], now[x], was[x], key, x == s);
    }
  }

  function NewEntry(key: HashedKey, charge: nat, countdown: nat, keepRef: bool, displacements: nat): FixedSlot
    requires countdown >= 1
  {
    FixedSlot(key, charge, Meta(countdown, countdown - (if keepRef then 1 else 0), false, Visible), displacements)
  }

  lemma InsertRespects(was: seq<FixedSlot>, now: seq<FixedSlot>, s: nat, e: FixedSlot)
    requires s < |was| && CellOf(was[s]) == Free && Bare(now) == Bare(was)[s := e.(displacements := 0)]
    ensures KeepsRefs(was, now, Neither)
  {
    BareSet(was, s, e);
    RespectsSet(was, now, s, e, Neither);
  }

  lemma NoneSkipped(bits: nat, slots: seq<FixedSlot>, key: HashedKey)
    requires |slots| == Pow2(bits)
    ensures Skipped(bits, slots, key, 0)
  {
  }

  lemma BareCell(a: seq<FixedSlot>, b: seq<FixedSlot>, x: nat)
    requires Bare(a) == Bare(b) && x < |a|
    ensures x < |b| && a[x].(displacements := 0) == b[x].(displacements := 0) && CellOf(a[x]) == CellOf(b[x])
  {
    assert Bare(a)[x] == Bare(b)[x];
  }

  lemma BareSet(a: seq<FixedSlot>, x: nat, s: FixedSlot)
    requires x < |a|
    ensures Bare(a[x := s]) == Bare(a)[x := s.(displacements := 0)]
  {
  }

  lemma BoostKeeps(bits: nat, slots: seq<FixedSlot>, x: nat, n: nat)
    requires Counted(bits, slots, NOTHING) && x < |slots|
    ensures Counted(bits, slots[x := Boosted(slots[x], n)], NOTHING)
  {
    CountedMeta(bits, slots, NOTHING, x, Boosted(slots[x], n).meta);
  }

  lemma SettledCount(slots: seq<FixedSlot>, owned: int, x: nat, d: nat)
    requires Settled(slots, owned) && x < |slots|
    ensures Settled(WithCount(slots, x, d), owned) && Bare(WithCount(slots, x, d)) == Bare(slots)
  {
    assert Bare(WithCount(slots, x, d)) == Bare(slots);
  }

  lemma SettledFill(slots: seq<FixedSlot>, x: nat, e: FixedSlot)
    requires Settled(slots, NOBODY) && x < |slots| && e.meta.Shareable() && e.meta.release <= e.meta.acquire
    ensures Settled(slots[x := e], NOBODY)
  {
  }

  lemma SlotSettled(slots: seq<FixedSlot>, s: nat)
    requires Settled(slots, NOBODY) && s < |slots|
    ensures slots[s].meta.state.Empty? || (slots[s].meta.Shareable() && slots[s].meta.release <= slots[s].meta.acquire)
  {
  }
}
