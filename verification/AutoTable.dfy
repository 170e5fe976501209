/** AutoHyperClockTable with no other thread at work. Lookups may still use a length read before any
    number of completed grows. */
module AutoTable {
  import opened Arith
  import opened Slots
  import opened LinearHashing
  import opened ChainPurge
  import opened ClockTurns
  import opened AutoChains
  import opened References
  import AutoProbe
  import ChainSplit
  import SplitModel
  import SplitReaders

  class Table {
    const slots: array<Slot>
    var length: nat
    var clock: nat
    var major: nat      // clock_pointer_mask_ + 1
    ghost var chains: seq<seq<nat>>

    ghost predicate Valid()
      reads this, slots
    {
      TableOk(slots[..], length, chains) && major > 0 && clock % STEP == 0
    }

    /** The table as created: zeroed slots, then the end markers of the initial homes. */
    constructor (size: nat, used: nat)
      requires 2 <= used <= size
      ensures Valid() && fresh(slots) && slots.Length == size && length == used && clock == 0
      ensures forall x | 0 <= x < size :: slots[x].meta == EMPTY_META
    {
      slots := new Slot[size](_ => ZEROED);
      length, clock, major := used, 0, Pow2(FloorLog2(used));
      chains := seq(used, _ => []);
      new;
      var minShift := FloorLog2(used);
      for i := 0 to major
        invariant major == Pow2(minShift) && slots.Length == size && fresh(slots) && length == used && clock == 0
            && chains == seq(used, _ => [])
        invariant forall x | 0 <= x < size :: slots[x] == HeadTo(used, minShift, i, x)
      {
        if major + i < used {
          slots[i] := slots[i].(head := MakeEnd(i, minShift + 1));
          slots[major + i] := slots[major + i].(head := MakeEnd(major + i, minShift + 1));
        } else {
          slots[i] := slots[i].(head := MakeEnd(i, minShift));
        }
      }
      Created(slots[..], used, chains);
    }

    method SetMeta(x: nat, m: Meta)
      requires Valid() && x < slots.Length
      requires m.Shareable() == slots[x].meta.Shareable() && (slots[x].meta.state.Empty? ==> m.state.Empty?)
      modifies slots
      ensures Valid() && slots[..] == WithMeta(old(slots[..]), x, m)
    {
      hide TableOk;
      TableMeta(slots[..], length, chains, x, m);
      slots[x] := slots[x].(meta := m);
      assert slots[..] == WithMeta(old(slots[..]), x, m);
    }

    /** The naive first attempt. Its index expression is the end mark of a link that is not an end, so
        it always inspects slot 0. */
    method FastLookup(key: HashedKey, home: nat) returns (found: int)
      requires Valid() && home < slots.Length
      modifies slots
      ensures Valid() && (found == -1 || (found == 0 && Matches(old(slots[0]), key)))
      ensures found == -1 ==> Untouched(slots[..], old(slots[..]))
      ensures found == 0 ==> Untouched(slots[..], Held(old(slots[..]), 0))
    {
      hide TableOk;
      var next := slots[home].head;
      var i := 0;
      while !next.end && i < 10
        invariant Valid() && Untouched(slots[..], old(slots[..]))
        decreases 10 - i
      {
        var h := if next.end then 1 else 0;
        if slots[h].key == key {
          var m := slots[h].meta;
          AtSlot(h);
          SetMeta(h, m.(acquire := m.acquire + 1));
          if m.Shareable() {
            if m.state.Visible? {
              return h;
            }
            SetMeta(h, m);
          }
        }
        next := slots[h].chain;
        i := i + 1;
      }
      return -1;
    }

    lemma AtSlot(x: nat)
      requires Valid() && x < slots.Length
      ensures slots[x].meta.Shareable() || slots[x].meta.state.Empty?
    {
      hide HomeOf, HeadShift, Chained;
      SlotAt(slots[..], length, chains, x);
    }

    /** MatchAndRef: a reference is kept on a visible match, or on an entry of the given home. */
    method MatchAndRef(key: HashedKey, x: nat, shift: nat, home: nat) returns (matched: bool, full: bool)
      requires Valid() && x < slots.Length && shift > 0
      modifies slots
      ensures Valid()
      ensures old(slots[x]).meta.Shareable() ==>
        && full == Matches(old(slots[x]), key) && matched == (full || home == HomeAt(slots[x].key.lo, shift))
        && slots[..] == if matched then Held(old(slots[..]), x) else old(slots[..])
      ensures !old(slots[x]).meta.Shareable() ==> !matched && full
    {
      hide TableOk, HomeAt;
      var m := slots[x].meta;
      AtSlot(x);
      SetMeta(x, m.(acquire := m.acquire + 1));
      if !m.Shareable() {
        return false, true;
      }
      if slots[x].key == key && m.state.Visible? {
        return true, true;
      }
      if home == HomeAt(slots[x].key.lo, shift) {
        return true, false;
      }
      SetMeta(x, m);
      assert slots[..] == old(slots[..]);
      return false, false;
    }

    method Unref(x: nat, ghost base: seq<Slot>)
      requires Valid() && x < slots.Length && |base| == slots.Length && slots[..] == Held(base, x)
          && base[x].meta.Shareable()
      modifies slots
      ensures Valid() && slots[..] == base
    {
      hide TableOk;
      var m := slots[x].meta;
      SetMeta(x, m.(acquire := m.acquire - 1));
      assert slots[..] == base;
    }

    /** The careful walk, from whatever length was read before. */
    method FullLookup(key: HashedKey, lag: nat) returns (found: int)
      requires Valid() && 2 <= lag <= length
      modifies slots
      ensures Valid() && -1 <= found < slots.Length
      ensures found == -1 ==> NoneMatch(old(slots[..]), key) && slots[..] == old(slots[..])
      ensures found >= 0 ==> Matches(old(slots[found]), key) && slots[..] == Held(old(slots[..]), found)
    {
      hide TableOk, HomeOf, ShiftOf, HeadShift, HomeAt, ChainOk, Chained, Searched, NoneMatch, LinkAt;
      ghost var base, target, last := slots[..], HomeOf(length, key.lo), ShiftOf(length, key.lo);
      HomeExists(base, length, chains, key);
      LaggingShift(lag, length, key.lo);
      SearchedNone(base, chains[target], key);
      var homeShift := ShiftOf(lag, key.lo);
      var home := HomeAt(key.lo, homeShift);
      var h: int, r: int := -1, -1;
      ghost var i := 0;
      while true
        invariant Valid() && homeShift <= last && home == HomeAt(key.lo, homeShift) && r == h
        invariant i <= |chains[target]| && (homeShift < last ==> i == 0)
        invariant h == (if i == 0 then -1 else chains[target][i - 1]) && h < slots.Length && slots[..] == Held(base, h)
        invariant Searched(base, chains[target], key, i)
        decreases last - homeShift, |chains[target]| - i
      {
        LinkRead(base, length, chains, key, homeShift, i);
        var next := if h >= 0 then slots[h].chain else slots[home].head;
        var shift := next.shift;
        if shift != homeShift {
          // the head has been split since the length was read: use one more hash bit and start over
          homeShift := homeShift + 1;
          home := HomeAt(key.lo, homeShift);
          continue;
        }
        if next.end {
          AllSearched(base, length, chains, key);
          if r >= 0 {
            Unref(r, base);
          }
          return -1;
        }
        var x := next.next;
        var matched, full := MatchAndRef(key, x, shift, home);
        HeldTwice(base, h, x);
        if r >= 0 {
          Unref(r, Held(base, x));
        }
        if full {
          FoundOne(base, x, key);
          return x;
        }
        SearchedOne(base, chains[target], key, i);
        h, r := x, x;
        i := i + 1;
      }
    }

    /** Finds a visible entry with the key, with a length read at any time in the past, and takes one
        reference to it; nothing else about any entry changes. */
    method Lookup(key: HashedKey, lag: nat) returns (found: int)
      requires Valid() && 2 <= lag <= length
      modifies slots
      ensures Valid() && -1 <= found < slots.Length
      ensures found == -1 <==> NoneMatch(old(slots[..]), key)
      ensures found >= 0 ==> Matches(old(slots[found]), key)
      ensures Untouched(slots[..], Held(old(slots[..]), found))
      ensures KeepsRefs(old(slots[..]), slots[..], if found < 0 then Neither else Gain(found))
    {
      hide TableOk, HomeOf, ShiftOf, HomeAt, NoneMatch, Untouched, KeepsRefs;
      HomeExists(slots[..], length, chains, key);
      LaggingHome(slots[..], length, chains, key, lag);
      found := FastLookup(key, HomeAt(key.lo, ShiftOf(lag, key.lo)));
      if found == 0 {
        FoundOne(old(slots[..]), 0, key);
        RefsHeld(old(slots[..]), slots[..], 0);
        return;
      }
      ghost var mid := slots[..];
      UntouchedNone(mid, old(slots[..]), key);
      found := FullLookup(key, lag);
      if found >= 0 {
        FoundOne(mid, found, key);
        UntouchedHeld(mid, old(slots[..]), found);
      }
      RefsHeld(old(slots[..]), slots[..], found);
    }

    /** TryInsert on one slot: an empty slot is filled; a visible match is boosted instead. */
    method TryInsert(x: nat, e: NewEntry) returns (inserted: bool, matches: bool)
      requires Valid() && x < slots.Length && 1 <= e.countdown
      modifies slots
      ensures inserted == old(slots[x]).meta.state.Empty? && matches == Matches(old(slots[x]), e.key)
      ensures inserted ==> slots[..] == old(slots[..])[x := Filled(old(slots[x]), e)]
      ensures !inserted ==>
          Valid() && slots[..] == if matches then old(slots[..])[x := Boosted(old(slots[x]), e.countdown)]
          else old(slots[..])
    {
      hide TableOk;
      AtSlot(x);
      var m := slots[x].meta;
      inserted, matches := m.state.Empty?, false;
      if inserted {
        slots[x] := Filled(slots[x], e);
        assert slots[..] == old(slots[..])[x := Filled(old(slots[x]), e)];
      } else if m.state.Visible? {
        SetMeta(x, m.(acquire := m.acquire + e.countdown));
        if slots[x].key == e.key {
          SetMeta(x, m.(acquire := m.acquire + e.countdown, release := m.release + e.countdown));
          matches := true;
        } else {
          SetMeta(x, m);
          assert slots[..] == old(slots[..]);
        }
      }
    }

    /** Jumps around the first `used` slots from a slot already tried, counting from `first`, until the
        count at the end of a circle has come to `limit`. */
    method Circles(e: NewEntry, from: nat, used: nat, incr: nat, first: nat, limit: nat, ghost c: AutoProbe.Cycle)
      returns (idx: int, matches: bool, start: nat, i: nat, ghost at: nat, ghost n: nat, ghost k: nat)
      requires Valid() && 1 <= e.countdown && from < used <= length && first > 0 && Tried(slots[..], e.key, from)
      requires AutoProbe.CycleOk(c) && c.length == used && c.incr == incr
      modifies slots
      ensures start == AutoProbe.Pos(from + n, incr, used, 0) < used
      ensures idx >= 0 || matches ==>
          Found(old(slots[..]), slots[..], length, e, idx, matches, at) && !Tried(old(slots[..]), e.key, at)
          && at == AutoProbe.Pos(from + n, incr, used, k) < used && k < c.d
          && (n > 0 ==> first - 1 + Steps(n, c.d) < limit)
      ensures idx < 0 && !matches ==>
          Valid() && slots[..] == old(slots[..]) && Rounds(slots[..], e.key, c, from, n) && n >= 1
          && i == first - 1 + Steps(n, c.d) >= limit && (n > 1 ==> first - 1 + Steps(n - 1, c.d) < limit)
    {
      hide TableOk, AutoProbe.Pos, AutoProbe.CycleOk, Rounds, Part, Tried, Steps, Found;
      ghost var base := slots[..];
      TableSize(base, length, chains);
      SearchStarts(base, e.key, c, from);
      n, k := 0, 0;
      idx, matches, start, i, at := from, false, from, first, 0;
      while true
        invariant Valid() && slots[..] == base
        invariant start == AutoProbe.Pos(from + n, incr, used, 0) && idx == AutoProbe.Pos(from + n, incr, used, k)
        invariant 0 <= idx < used && start < used && k < c.d && i == first + Steps(n, c.d) + k
        invariant n > 0 ==> first - 1 + Steps(n, c.d) < limit
        invariant Rounds(base, e.key, c, from, n) && Part(base, e.key, c, from + n, k)
        decreases limit + c.d + first + 1 - i
      {
        SearchStep(c, from, n, k);
        var circled;
        idx, start, circled := Jump(idx, start, incr, used);
        if circled {
          RoundDone(base, e.key, c, from, n);
          n, k := n + 1, 0;
          if i >= limit {
            idx := -1;
            return;
          }
        } else {
          k := k + 1;
        }
        var inserted;
        at := idx;
        EndsWith(base, length, e, idx);
        inserted, matches := TryInsert(idx, e);
        if inserted {
          return;
        }
        if matches {
          idx := -1;
          return;
        }
        TriedOne(base, e.key, c, from + n, k);
        i := i + 1;
      }
    }

    /** The search by golden-ratio jumps from a slot already tried. It begins with a length that may be too
        small, and turns to the length in effect once it has counted that far. */
    method GoldenSearch(e: NewEntry, from: nat, lag: nat) returns (idx: int, matches: bool, ghost at: nat)
      requires Valid() && 1 <= e.countdown && e.key.lo < WORD && 2 <= lag <= length
      requires from < lag && Tried(slots[..], e.key, from)
      modifies slots
      ensures SearchResult(old(slots[..]), slots[..], length, e, idx, matches, at,
          if AutoProbe.Blind(lag, length, AutoProbe.Increment(e.key.lo, lag), from) then lag else length)
      ensures TriedBelow(old(slots[..]), e.key, lag) ==>
          AutoProbe.Blind(lag, length, AutoProbe.Increment(e.key.lo, lag), from) ==> idx < 0 && !matches
    {
      hide TableOk, AutoProbe.Pos, AutoProbe.CycleOk, AutoProbe.Increment, Rounds, Tried, Steps, Found;
      ghost var base := slots[..];
      TableSize(base, length, chains);
      var incr := AutoProbe.Increment(e.key.lo, lag);
      AutoProbe.IncrementInRange(e.key.lo, lag);
      ghost var c := AutoProbe.MakeCycle(incr, lag);
      var start, i;
      ghost var n, k;
      if lag == length {
        idx, matches, start, i, at, n, k := Circles(e, from, lag, incr, 4, 2 * lag, c);
        if idx < 0 && !matches {
          TriedAtOnce(base, e.key, c, from, n);
        }
        return;
      }
      idx, matches, start, i, at, n, k := Circles(e, from, lag, incr, 4, lag, c);
      if idx >= 0 || matches {
        return;
      }
      assert Turned(c, from, n, start);
      TurnedInTime(c, from, n, start);
      assert i < 2 * length;  // so reading the length again does not end the search
      var inserted;
      EndsWith(base, length, e, start);
      inserted, matches := TryInsert(start, e);
      if inserted || matches {
        return if inserted then start else -1, matches, start;
      }
      ghost var c' := AutoProbe.MakeCycle(incr, length);
      ghost var n', turn := 0, start;
      idx, matches, start, i, at, n', k := Circles(e, start, length, incr, i + 1, 2 * length, c');
      if idx < 0 && !matches {
        TriedInTwo(base, e.key, c, from, n, turn, c', n');
      } else if AutoProbe.Blind(lag, length, incr, from) {
        BlindToLast(c, from, n, turn, c', n', k);
      }
    }

    /** idx + incr around the used part; after a full circle, both positions move on by one. */
    method Jump(idx: nat, start: nat, incr: nat, used: nat) returns (idx': nat, start': nat, circled: bool)
      requires idx < used && start < used && incr < used
      ensures var next := if idx + incr >= used then idx + incr - used else idx + incr;
        && circled == (next == start)
        && start' == (if !circled then start else if start + 1 >= used then start + 1 - used else start + 1)
        && idx' == (if circled then start' else next)
    {
      idx', start' := idx + incr, start;
      if idx' >= used {
        idx' := idx' - used;
      }
      circled := idx' == start';
      if circled {
        idx' := idx' + 1;
        if idx' >= used {
          idx' := idx' - used;
        }
        start' := start' + 1;
        if start' >= used {
          start' := start' - used;
        }
      }
    }

    /** Four neighbours of a home already tried, then big jumps. */
    method ProbeOn(e: NewEntry, home: nat, lag: nat) returns (idx: int, matches: bool, ghost at: nat)
      requires Valid() && 1 <= e.countdown && e.key.lo < WORD && 2 <= lag <= length
      requires home < lag && home == HomeOf(lag, e.key.lo) && Tried(slots[..], e.key, home)
      modifies slots
      ensures SearchResult(old(slots[..]), slots[..], length, e, idx, matches, at, Reach(e.key.lo, lag, length))
      ensures BlindFor(e.key.lo, lag, length) && TriedBelow(old(slots[..]), e.key, lag) ==> idx < 0 && !matches
    {
      hide TableOk, HomeOf, Found, Tried, TriedBelow, Boosted, Filled, Reach, BlindFor;
      hide AutoProbe.Blind, AutoProbe.Increment;
      ghost var base := slots[..];
      TableSize(base, length, chains);
      idx, matches := home, false;
      ModUnique(home, lag, 0, home);
      for i := 0 to PROBES
        invariant Valid() && slots[..] == base && !matches
        invariant idx == (home + i) % lag < lag && Tried(base, e.key, idx)
      {
        NextIndex(home + i, lag);
        idx := idx + 1;
        if idx >= lag {
          idx := idx - lag;
        }
        at := idx;
        EndsWith(base, length, e, at);
        TriedThere(base, e.key, lag, at);
        var inserted;
        inserted, matches := TryInsert(idx, e);
        if inserted {
          return;
        }
        if matches {
          return -1, true, at;
        }
      }
      ReachFrom(e.key.lo, lag, length);
      idx, matches, at := GoldenSearch(e, idx, lag);
    }

    /** The search for a slot: the home, a slot known to be free, four neighbours, then big jumps. The
        length was read before the table last grew, if it grew at all. */
    method FindSlot(e: NewEntry, lag: nat, likelyEmpty: nat) returns (idx: int, matches: bool, ghost at: nat)
      requires Valid() && 1 <= e.countdown && e.key.lo < WORD && 2 <= lag <= length
      requires likelyEmpty > 0 ==> likelyEmpty < length && !Matches(slots[likelyEmpty], e.key)
      modifies slots
      ensures SearchResult(old(slots[..]), slots[..], length, e, idx, matches, at, Reach(e.key.lo, lag, length))
      ensures BlindFor(e.key.lo, lag, length) && likelyEmpty == 0 && TriedBelow(old(slots[..]), e.key, lag) ==>
          idx < 0 && !matches
    {
      hide TableOk, HomeOf, ShiftOf, HomeAt, Found, Tried, TriedBelow, Boosted, Filled, Reach, BlindFor;
      ghost var base := slots[..];
      TableSize(base, length, chains);
      HomeInRange(lag, e.key.lo);
      SameHome(lag, e.key.lo);
      var home := HomeAt(e.key.lo, ShiftOf(lag, e.key.lo));
      EndsWith(base, length, e, home);
      TriedThere(base, e.key, lag, home);
      var inserted;
      inserted, matches := TryInsert(home, e);
      if inserted {
        return home, false, home;
      }
      if matches {
        return -1, true, home;
      }
      if likelyEmpty > 0 {
        EndsWith(base, length, e, likelyEmpty);
        var ignored;
        inserted, ignored := TryInsert(likelyEmpty, e);
        if inserted {
          return likelyEmpty, false, likelyEmpty;
        }
      }
      idx, matches, at := ProbeOn(e, home, lag);
    }

    /** Links a filled slot at the head of the chain of its home. */
    method Link(idx: nat, e: NewEntry, lag: nat, ghost base: seq<Slot>)
      requires TableOk(base, length, chains) && major > 0 && clock % STEP == 0 && 2 <= lag <= length && idx < length
          && e.countdown >= 1
      requires slots.Length == |base| && base[idx].meta.state.Empty? && slots[..] == base[idx := Filled(base[idx], e)]
      modifies slots, `chains
      ensures Valid() && chains == Pushed(old(chains), HomeOf(length, e.key.lo), idx)
      ensures slots[idx].meta == Filled(base[idx], e).meta && SameContents(slots[..], base[idx := Filled(base[idx], e)])
    {
      hide TableOk, HomeOf, ShiftOf, HomeAt, HeadShift, Filled, SameContents, Pushed;
      ghost var last := ShiftOf(length, e.key.lo);
      TableSize(base, length, chains);
      HomeExists(base, length, chains, e.key);
      LaggingShift(lag, length, e.key.lo);
      var homeShift := ShiftOf(lag, e.key.lo);
      var home := HomeAt(e.key.lo, homeShift);
      ghost var mem := slots[..];
      while true
        invariant slots[..] == mem && chains == old(chains) && homeShift <= last && home == HomeAt(e.key.lo, homeShift)
        decreases last - homeShift
      {
        LinkRead(base, length, chains, e.key, homeShift, 0);
        FilledHead(base, idx, e, home);
        var next := slots[home].head;
        if next.shift != homeShift {
          homeShift := homeShift + 1;
          home := HomeAt(e.key.lo, homeShift);
          continue;
        }
        SameHome(length, e.key.lo);
        LinkedIn(base, length, chains, idx, e);
        slots[idx] := slots[idx].(chain := next);
        slots[home] := slots[home].(head := Make(idx, homeShift));
        assert slots[..] == WithHead(WithChain(mem, idx, next), home, Make(idx, homeShift));
        chains := Pushed(chains, home, idx);
        return;
      }
    }

    /** Inserts an entry, unless a slot tried on the way holds a visible match. It gives up only when
        every slot in use is taken by other entries, or, if its search is a blind one, exactly when every
        slot but the last is. */
    method DoInsert(e: NewEntry, keepRef: bool, lag: nat, likelyEmpty: nat) returns (idx: int, matches: bool)
      requires Valid() && 1 <= e.countdown && e.key.lo < WORD && 2 <= lag <= length
      requires likelyEmpty > 0 ==> likelyEmpty < length && !Matches(slots[likelyEmpty], e.key)
      modifies slots, `chains
      ensures Valid() && idx < slots.Length
      ensures idx >= 0 ==>
          idx < length && old(slots[idx]).meta.state.Empty?
          && chains == Pushed(old(chains), HomeOf(length, e.key.lo), idx)
      ensures idx >= 0 ==>
          slots[idx].key == e.key && slots[idx].charge == e.charge && slots[idx].meta.state.Visible?
          && slots[idx].meta.release == e.countdown - 1 && !slots[idx].meta.hit
          && slots[idx].meta.Refcount() == (if keepRef then 1 else 0)
      ensures idx >= 0 ==> forall x | 0 <= x < slots.Length && x != idx ::
        slots[x].meta == old(slots[x]).meta && slots[x].key == old(slots[x]).key
            && slots[x].charge == old(slots[x]).charge
      ensures idx < 0 ==> chains == old(chains)
      ensures idx < 0 && matches ==> exists x | 0 <= x < length ::
        && Matches(old(slots[x]), e.key) && slots[..] == WithMeta(old(slots[..]), x, slots[x].meta)
        && slots[x].meta.acquire == old(slots[x]).meta.acquire + e.countdown
        && slots[x].meta.release == old(slots[x]).meta.release + e.countdown
        && slots[x].meta.state == old(slots[x]).meta.state && slots[x].meta.hit == old(slots[x]).meta.hit
      ensures idx < 0 && !matches ==>
          slots[..] == old(slots[..]) && TriedBelow(slots[..], e.key, Reach(e.key.lo, lag, length))
      ensures BlindFor(e.key.lo, lag, length) && likelyEmpty == 0 && TriedBelow(old(slots[..]), e.key, lag) ==>
          idx < 0 && !matches
      ensures KeepsRefs(old(slots[..]), slots[..], Neither)
    {
      hide TableOk, HomeOf, SameContents, Pushed, BlindFor, KeepsRefs;
      ghost var base, at := slots[..], 0;
      idx, matches, at := FindSlot(e, lag, likelyEmpty);
      if idx >= 0 {
        Link(idx, e, lag, base);
        Entries(slots[..], base[idx := Filled(base[idx], e)]);
        if !keepRef {
          var m := slots[idx].meta;
          SetMeta(idx, m.(acquire := m.acquire - 1));
        }
        RefsAt(base, slots[..], idx, Neither);
      } else if matches {
        TableMeta(base, length, chains, at, Boosted(base[at], e.countdown).meta);
        assert slots[..] == WithMeta(base, at, Boosted(base[at], e.countdown).meta);
        RefsAt(base, slots[..], at, Neither);
      } else {
        RefsSame(base, slots[..]);
      }
    }

    /** Takes one more slot into use as a home, splitting the chain it descends from. */
    method Grow() returns (grown: bool)
      requires Valid()
      modifies slots, `length, `chains
      ensures Valid() && grown == (old(length) < slots.Length) && length == old(length) + (if grown then 1 else 0)
      ensures grown ==>
          SameContents(slots[..], old(slots[..])) && chains == Split(old(slots[..]), old(length), old(chains))
      ensures !grown ==> slots[..] == old(slots[..]) && chains == old(chains)
      ensures KeepsRefs(old(slots[..]), slots[..], Neither)
    {
      hide TableOk, HomeOf, HeadShift, FloorLog2, SameContents, HomeAt, Split, SplitFor;
      hide ChainSplit.Finished, ChainSplit.Framed, ChainSplit.SplitChain, ChainSplit.TraceOk, SplitReaders.Readable;
      hide ChainSplit.Splitter.Valid, SplitModel.ViewOk, SplitModel.Rendered, ChainSplit.SplitOf;
      if length >= slots.Length {
        RefsSame(slots[..], slots[..]);
        return false;
      }
      ghost var mem := slots[..];
      TableSize(mem, length, chains);
      SplitStarts(mem, length, chains);
      SplitForIs(mem, length);
      var growHome := length;
      var oldShift := FloorLog2(growHome);
      var oldHome := HomeAt(growHome, oldShift);
      var splitter := new ChainSplit.Splitter(slots, oldHome, growHome, oldShift, [], chains[oldHome]);
      splitter.SplitForGrow();
      SplitEnds(mem, length, chains, slots[..], splitter.early, splitter.late, splitter.view, splitter.touched);
      chains := Split(mem, length, chains);
      RefsSame(mem, slots[..]);
      length := length + 1;
      return true;
    }

    /** The home of a key under the shift in effect, from a length read in the past. */
    method CurrentHome(hash: nat, lag: nat, ghost base: seq<Slot>) returns (home: nat, homeShift: nat)
      requires TableOk(base, length, chains) && 2 <= lag <= length && |base| == slots.Length
      requires forall h | 0 <= h < |base| :: slots[h].head == base[h].head
      ensures home == HomeOf(length, hash) < length == |chains| && homeShift == HeadShift(length, home)
    {
      hide TableOk, HomeOf, ShiftOf, HomeAt, HeadShift;
      ghost var last := ShiftOf(length, hash);
      TableSize(base, length, chains);
      LaggingShift(lag, length, hash);
      homeShift := ShiftOf(lag, hash);
      home := HomeAt(hash, homeShift);
      while true
        invariant homeShift <= last && home == HomeAt(hash, homeShift)
        decreases last - homeShift
      {
        ShiftRead(base, length, chains, hash, homeShift);
        if slots[home].head.shift > homeShift {
          homeShift := homeShift + 1;
          home := HomeAt(hash, homeShift);
        } else {
          return;
        }
      }
    }

    /** PurgeImpl for a key: unlinks what is owned from the chain of its home. */
    method Remove(x: nat, lag: nat, ghost base: seq<Slot>)
      requires TableOk(base, length, chains) && 2 <= lag <= length && x < |base| == slots.Length
          && base[x].meta.Shareable()
      requires slots[..] == WithMeta(base, x, slots[x].meta) && slots[x].meta.state.Construction?
      modifies slots, `chains
      ensures Owing(slots[..], length, chains, {x}) && chains == Removed(old(chains), Home(length, base[x]), {x})
      ensures SameContents(slots[..], old(slots[..]))
    {
      hide TableOk, HomeOf, HeadShift, SameContents, Removed, Owing, Chained, Account, Local, Alone, Only, Clear, Dead,
          Purger.Valid;
      ghost var mem := slots[..];
      var home, homeShift := CurrentHome(slots[x].key.lo, lag, base);
      PurgeStarts(base, length, chains, home, x, slots[x].meta);
      var purger := new Purger(slots, home, homeShift, [], chains[home]);
      var ignored, data := purger.Purge(false, EvictionData(0, 0, 0));
      purger.Outcome();
      NoneElems();
      RemovedOne(base, length, chains, x, mem, slots[..], purger.chain, home);
      chains := Removed(chains, home, {x});
    }

    /** Takes an entry out if nobody else refers to it; else only hides it, if asked to. */
    method TryEraseHandle(x: nat, holdingRef: bool, markInvisible: bool, lag: nat) returns (gone: bool)
      requires Valid() && x < slots.Length && 2 <= lag <= length && (holdingRef ==> slots[x].meta.Shareable())
      modifies slots, `chains
      ensures Valid()
      ensures gone <==> old(slots[x]).meta.Shareable() && old(slots[x]).meta.Refcount() == if holdingRef then 1 else 0
      ensures gone ==> chains == Removed(old(chains), Home(length, old(slots[x])), {x})
      ensures gone ==> SameContents(slots[..], WithMeta(old(slots[..]), x, EMPTY_META))
      ensures !gone ==>
          chains == old(chains)
          && slots[..] == if markInvisible then WithMeta(old(slots[..]), x, Hidden(old(slots[x]).meta))
          else old(slots[..])
    {
      hide TableOk, HomeOf, SameContents, Removed, Owing;
      var m := slots[x].meta;
      if m.Refcount() != (if holdingRef then 1 else 0) {
        if markInvisible {
          AtSlot(x);
          SetMeta(x, Hidden(m));
        }
        return false;
      }
      if !m.Shareable() {
        return false;
      }
      ghost var base := slots[..];
      slots[x] := slots[x].(meta := Meta(0, 0, false, Construction));
      assert slots[..] == WithMeta(base, x, slots[x].meta);
      Remove(x, lag, base);
      ghost var mid := slots[..];
      slots[x] := slots[x].(meta := EMPTY_META);
      assert slots[..] == Cleared(mid, {x});
      Settled(base, mid, length, chains, x);
      return true;
    }

    /** Gives a reference back; frees the entry if that was the last and it is to go. */
    method Release(x: nat, useful: bool, eraseIfLast: bool, lag: nat) returns (freed: bool)
      requires Valid() && x < slots.Length && 2 <= lag <= length && slots[x].meta.Shareable()
          && slots[x].meta.Refcount() > 0
      modifies slots, `chains
      ensures Valid()
      ensures freed <==> (eraseIfLast || old(slots[x]).meta.state.Invisible?) && old(slots[x]).meta.Refcount() == 1
      ensures chains == if freed then Removed(old(chains), Home(length, old(slots[x])), {x}) else old(chains)
      ensures SameContents(slots[..], WithMeta(old(slots[..]), x, if freed then EMPTY_META
          else Released(old(slots[x]).meta, useful)))
      ensures !freed ==> slots[x].meta.state == old(slots[x]).meta.state && slots[x].meta.hit == old(slots[x]).meta.hit
      ensures !freed ==> slots[x].meta.acquire == old(slots[x]).meta.acquire - (if useful then 0 else 1)
      ensures !freed ==> slots[x].meta.release == old(slots[x]).meta.release + (if useful then 1 else 0)
      ensures KeepsRefs(old(slots[..]), slots[..], Loss(x))
    {
      hide TableOk, HomeOf, Removed, KeepsRefs;
      var m := slots[x].meta;
      SetMeta(x, if useful then m.(release := m.release + 1) else m.(acquire := m.acquire - 1));
      freed := false;
      if eraseIfLast || m.state.Invisible? {
        freed := TryEraseHandle(x, false, false, lag);
      }
      RefsAt(old(slots[..]), slots[..], x, Loss(x));
    }

    /** Erases every visible entry with the key: gone if unreferenced, else hidden from lookups. */
    method Erase(key: HashedKey, lag: nat)
      requires Valid() && 2 <= lag <= length
      modifies slots, `chains
      ensures Valid() && NoneMatch(slots[..], key) && ErasedFrom(slots[..], old(slots[..]), key)
      ensures KeepsRefs(old(slots[..]), slots[..], Neither)
    {
      hide TableOk, HomeOf, Removed, NoneMatch, ErasedSome, ErasedFrom, Untouched, SameContents, KeepsRefs;
      ghost var was := slots[..];
      ErasedNone(was, key);
      while true
        invariant Valid() && ErasedSome(slots[..], was, key)
        decreases Matching(slots[..], key)
      {
        ghost var before := slots[..];
        var h := Lookup(key, lag);
        ghost var held := slots[..];
        if h < 0 {
          ErasedHeld(was, before, held, key);
          ErasedAll(held, was, key);
          RefsErased(was, held, key);
          return;
        }
        MatchHeld(before, held, h, key);
        var gone := TryEraseHandle(h, true, true, lag);
        if !gone {
          var m := slots[h].meta;
          SetMeta(h, m.(acquire := m.acquire - 1));
        }
        EraseEnds(before, held, slots[..], h, gone);
        ErasedOne(was, before, held, slots[..], key, h);
      }
    }

    /** PurgeImpl on the chain of a home, with clock updates: one for every entry of that home. */
    method PurgeHome(h: nat, data: EvictionData, ghost owned: set<nat>) returns (evicted: seq<nat>, data': EvictionData)
      requires Owing(slots[..], length, chains, owned) && h < length
      modifies slots, `chains
      ensures Owing(slots[..], length, chains, owned + Elems(evicted)) && length >= 2
          && chains == Removed(old(chains), h, Elems(evicted))
      ensures Ticked(Cleared(old(slots[..]), owned), Cleared(slots[..], owned + Elems(evicted)), length, [h])
      ensures Gone(Cleared(old(slots[..]), owned), Cleared(slots[..], owned + Elems(evicted)), evicted)
      ensures data' == Charged(data, Cleared(old(slots[..]), owned), length, [h], evicted)
    {
      hide TableOk, HomeOf, HeadShift, Removed, Owing, Charges, NoDup, Alone, Elems, AllVisited, Purger.Valid, Cleared;
      hide Chained, Account, Local, Clear, Dead, PinnedOn, PinnedMet, Ticked, Gone, Kept, SameEntries;
      ghost var mem := slots[..];
      HomePurgeStarts(mem, length, chains, h, owned);
      var purger := new Purger(slots, h, slots[h].head.shift, [], chains[h]);
      SameTrans(mem, mem, mem);
      evicted, data' := purger.Purge(true, data);
      purger.Outcome();
      purger.OneTick(evicted);
      PurgedMore(mem, length, chains, h, slots[..], purger.chain, Elems(evicted), owned, evicted);
      PurgedTicks(mem, length, chains, h, slots[..], owned, evicted);
      PinnedOfHome(mem, length, chains, h, owned);
      ChargesCleared(mem, owned, evicted);
      chains := Removed(chains, h, Elems(evicted));
    }

    /** The homes of one clock step, in every generation of the mask. */
    method SweepHomes(start: nat, lag: nat, before: EvictionData) returns (toFinish: seq<nat>, data: EvictionData)
      requires Valid() && 2 <= lag <= length
      modifies slots, `chains
      ensures Owing(slots[..], length, chains, Elems(toFinish)) && length >= 2
      ensures var tour := Tour(start % major, major, lag);
        && Ticked(old(slots[..]), Cleared(slots[..], Elems(toFinish)), length, tour)
        && Gone(old(slots[..]), Cleared(slots[..], Elems(toFinish)), toFinish)
        && data == Charged(before, old(slots[..]), length, tour, toFinish)
    {
      hide TableOk, HomeOf, Removed, Owing, Charges, NoDup, Elems, Cleared, Ticked, Gone, PinnedMet, Charged, Row;
      hide Tour, Sweeping;
      ghost var was := slots[..];
      ghost var tour: seq<nat> := [];
      toFinish, data := [], before;
      TableSize(was, length, chains);
      SweepStarts(was, length, chains, before);
      var base := start % major;
      assert tour + Tour(base, major, lag) == Tour(base, major, lag);
      while base < lag
        invariant Sweeping(was, slots[..], length, chains, before, data, toFinish, tour)
        invariant tour + Tour(base, major, lag) == Tour(start % major, major, lag)
      {
        ghost var row := tour;
        RowNone(base, lag, tour);
        for i := 0 to STEP
          invariant Sweeping(was, slots[..], length, chains, before, data, toFinish, tour)
          invariant tour == row + Row(base, lag, i)
        {
          if base + i >= lag {
            RowRest(base, lag, i);
            break;
          }
          ghost var mid, d := slots[..], data;
          SweepOn(was, mid, length, chains, before, data, toFinish, tour);
          var evicted;
          evicted, data := PurgeHome(base + i, data, Elems(toFinish));
          SweepMore(was, mid, slots[..], length, chains, before, d, data, toFinish, evicted, tour, base + i);
          RowMore(base, lag, i);
          toFinish, tour := toFinish + evicted, tour + [base + i];
        }
        TourOn(row, base, major, lag);
        base := base + major;
      }
      TourEnds(tour, base, major, lag);
      SweepOn(was, slots[..], length, chains, before, data, toFinish, tour);
    }

    /** One clock step: sweep some homes, then mark what was taken empty. */
    method EvictStep(start: nat, lag: nat, before: EvictionData) returns (freed: seq<nat>, data: EvictionData)
      requires Valid() && 2 <= lag <= length
      modifies slots, `chains
      ensures Valid()
      ensures var tour := Tour(start % major, major, lag);
        && Ticked(old(slots[..]), slots[..], length, tour) && Gone(old(slots[..]), slots[..], freed)
        && data == Charged(before, old(slots[..]), length, tour, freed)
    {
      hide TableOk, HomeOf, Charges, NoDup, Cleared, Elems, Owing, Ticked, PinnedMet, Charged, Tour;
      freed, data := SweepHomes(start, lag, before);
      ghost var mid := slots[..];
      ClearedNone(mid);
      OwingEnds(mid, length, chains, Elems(freed));
      for k := 0 to |freed|
        modifies slots
        invariant slots[..] == Cleared(mid, Elems(freed[..k]))
      {
        assert freed[k] in freed;
        ClearedOne(mid, freed, k);
        slots[freed[k]] := slots[freed[k]].(meta := EMPTY_META);
        assert slots[..] == WithMeta(Cleared(mid, Elems(freed[..k])), freed[k], EMPTY_META);
      }
      assert freed[..|freed|] == freed;
    }

    /** Evict: clock steps until enough is freed, the clock has gone around four times or the effort is
        exceeded. Every entry gets its clock updates as the schedule says, and exactly those that expire
        are reported. Stopped by the clock, with the whole table in sight, it leaves no entry that was
        unreferenced at its start. `ledger` is what had been achieved after each step. */
    method Evict(requested: nat, effortCap: nat, before: EvictionData, lag: nat)
      returns (data: EvictionData, stop: Stop, ghost freed: seq<nat>, ghost ledger: seq<EvictionData>)
      requires Valid() && 2 <= lag <= length && requested > 0
      modifies slots, `chains, `clock, `major
      ensures Valid() && clock == old(clock) + STEP * |ledger|
      ensures var tour := Schedule(old(clock), old(major), lag, |ledger|);
        && Ticked(old(slots[..]), slots[..], length, tour) && Gone(old(slots[..]), slots[..], freed)
        && data == Charged(before, old(slots[..]), length, tour, freed)
      ensures KeepsRefs(old(slots[..]), slots[..], Neither)
      // the run goes on exactly until a step gives a reason to stop
      ensures ledger != [] && data == ledger[|ledger| - 1]
      ensures Booked(old(slots[..]), length, old(clock), old(major), lag, before, ledger)
      ensures forall i | 0 <= i < |ledger| - 1 :: WorthGoingOn(ledger[i], requested, effortCap)
      ensures STEP * (|ledger| - 1) < 4 * NextMajor(old(clock), old(major), lag) || |ledger| == 1
      ensures stop == Enough <==> data.freedCharge >= requested
      ensures stop == ClockBound ==> STEP * |ledger| >= 4 * NextMajor(old(clock), old(major), lag)
      ensures stop == EffortCap ==> STEP * |ledger| < 4 * NextMajor(old(clock), old(major), lag)
      ensures stop == EffortCap ==> !WorthGoingOn(data, requested, effortCap)
      ensures stop == ClockBound && InSight(old(clock), old(major), lag, length) ==>
        forall x | 0 <= x < slots.Length && old(slots[x]).meta.Shareable()
            && old(slots[x]).meta.Refcount() == 0 :: x in freed
    {
      hide TableOk, Charges, Ticked, Gone, Elems, NextMajor, Pow2, FloorLog2, Tour, Schedule, Charged, Booked;
      hide PinnedMet, MajorAt, KeepsRefs;
      ghost var was, pass := slots[..], NextMajor(clock, major, lag);
      ghost var clock0, major0 := clock, major;
      TableSize(was, length, chains);
      data, freed, ledger := before, [], [];
      RunStarts(was, length, clock, major, lag, before);
      var maxClock := 0;
      while true
        invariant Valid() && clock == clock0 + STEP * |ledger|
        invariant Running(was, slots[..], length, clock0, major0, lag, before, data, freed, ledger, major)
        invariant forall i | 0 <= i < |ledger| :: WorthGoingOn(ledger[i], requested, effortCap)
        invariant if maxClock == 0 then ledger == [] else maxClock == clock0 + 4 * pass && clock < maxClock
        decreases maxClock == 0, maxClock - clock
      {
        var start := clock;
        clock := clock + STEP;
        NextMajorPositive(start, major, lag);
        ghost var mid, d, m := slots[..], data, major;
        major := NextMajor(start, major, lag);
        var more;
        more, data := EvictStep(start, lag, data);
        RunStep(was, mid, slots[..], length, clock0, major0, lag, before, d, data, freed, more, ledger, m);
        freed, ledger := freed + more, ledger + [data];
        RunEnds(was, slots[..], length, clock0, major0, lag, before, data, freed, ledger, major);
        RefsTicked(was, slots[..], length, Schedule(clock0, major0, lag, |ledger|));
        if data.freedCharge >= requested {
          return data, Enough, freed, ledger;
        }
        if maxClock == 0 {
          maxClock := start + (MAX_COUNTDOWN + 1) * major;
        }
        if start + STEP >= maxClock {
          if InSight(clock0, major0, lag, length) {
            AllGone(was, slots[..], freed, length, clock0, major0, |ledger|);
          }
          return data, ClockBound, freed, ledger;
        }
        if (data.freedCount + 1) * effortCap <= data.seenPinned {
          return data, EffortCap, freed, ledger;
        }
      }
    }
  }
}
