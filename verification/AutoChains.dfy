/** The Auto table on values: linear hashing with one chain per home inside one array of slots, and how
    inserting, splitting, purging and evicting change it. */
module AutoChains {
  import opened Arith
  import opened Slots
  import opened LinearHashing
  import opened ChainPurge
  import opened ClockTurns
  import opened References
  import AutoProbe
  import ChainSplit
  import SplitModel
  import SplitReaders

  // ---------------------------------------------------------------------------------------
  // The table on values

  function Home(length: nat, s: Slot): nat
    requires length >= 2
  {
    HomeOf(length, s.key.lo)
  }

  /** The chain of one home: linked under that home's shift, holding entries that belong there. */
  ghost predicate ChainOk(mem: seq<Slot>, length: nat, h: nat, chain: seq<nat>)
    requires length >= 2
  {
    && Chained(mem, h, HeadShift(length, h), chain, false)
    && forall i | 0 <= i < |chain| ::
        chain[i] < length && chain[i] < |mem| && mem[chain[i]].meta.Shareable() && Home(length, mem[chain[i]]) == h
  }

  /** A populated slot is on its home's chain; any other slot is empty. */
  ghost predicate SlotOk(mem: seq<Slot>, length: nat, chains: seq<seq<nat>>, x: nat)
    requires length >= 2 && x < |mem|
  {
    if mem[x].meta.Shareable() then Home(length, mem[x]) < |chains| && x in chains[Home(length, mem[x])]
    else mem[x].meta.state.Empty?
  }

  ghost predicate TableOk(mem: seq<Slot>, length: nat, chains: seq<seq<nat>>) {
    && 2 <= length <= |mem| && |chains| == length
    && (forall h | 0 <= h < length :: ChainOk(mem, length, h, chains[h]))
    && (forall x | 0 <= x < |mem| :: SlotOk(mem, length, chains, x))
    && (forall h | length <= h < |mem| :: mem[h].head == UNUSED)
  }

  lemma ChainAt(mem: seq<Slot>, length: nat, chains: seq<seq<nat>>, h: nat)
    requires TableOk(mem, length, chains) && h < length
    ensures ChainOk(mem, length, h, chains[h])
  {
  }

  lemma SlotAt(mem: seq<Slot>, length: nat, chains: seq<seq<nat>>, x: nat)
    requires TableOk(mem, length, chains) && x < |mem|
    ensures SlotOk(mem, length, chains, x)
  {
  }

  /** Every populated slot is on exactly one chain. */
  lemma OneChain(mem: seq<Slot>, length: nat, chains: seq<seq<nat>>, x: nat, h: nat)
    requires TableOk(mem, length, chains) && x < |mem| && h < length
    ensures x in chains[h] <==> mem[x].meta.Shareable() && Home(length, mem[x]) == h
  {
    hide HomeOf, HeadShift, Chained;
    ChainAt(mem, length, chains, h);
    SlotAt(mem, length, chains, x);
  }

  /** Metadata may change as long as the slot stays populated, or empty. */
  lemma TableMeta(mem: seq<Slot>, length: nat, chains: seq<seq<nat>>, x: nat, m: Meta)
    requires TableOk(mem, length, chains) && x < |mem|
    requires m.Shareable() == mem[x].meta.Shareable() && (mem[x].meta.state.Empty? ==> m.state.Empty?)
    ensures TableOk(WithMeta(mem, x, m), length, chains)
  {
    hide HomeOf, HeadShift, Chained;
    var now := WithMeta(mem, x, m);
    forall h | 0 <= h < length ensures ChainOk(now, length, h, chains[h]) {
      ChainAt(mem, length, chains, h);
      ChainedMeta(mem, h, HeadShift(length, h), chains[h], false, x, m);
    }
    forall y | 0 <= y < |now| ensures SlotOk(now, length, chains, y) {
      SlotAt(mem, length, chains, y);
    }
  }

  function Acquired(s: Slot): Slot { s.(meta := s.meta.(acquire := s.meta.acquire + 1)) }

  predicate Matches(s: Slot, key: HashedKey) { s.meta.state.Visible? && s.key == key }

  /** The slots hold the same; only on an empty one a stray acquire count may differ. */
  ghost predicate Untouched(now: seq<Slot>, was: seq<Slot>) {
    && |now| == |was|
    && forall x | 0 <= x < |now| ::
         now[x] == was[x] || (was[x].meta.state.Empty?
             && now[x] == was[x].(meta := was[x].meta.(acquire := now[x].meta.acquire)))
  }

  function Items(mem: seq<Slot>): (items: seq<Item>)
    ensures |items| == |mem|
  {
    seq(|mem|, i requires 0 <= i < |mem| => Item(mem[i].key, mem[i].charge, mem[i].meta))
  }

  /** What an operation did to the references held, see References. */
  ghost predicate KeepsRefs(was: seq<Slot>, now: seq<Slot>, d: Deed) { Respects(Items(was), Items(now), d) }

  lemma RefsHeld(was: seq<Slot>, now: seq<Slot>, found: int)
    requires found < |was| && Untouched(now, Held(was, found)) && (found >= 0 ==> was[found].meta.Shareable())
    ensures KeepsRefs(was, now, if found < 0 then Neither else Gain(found))
  {
  }

  /** Only one slot's entry has changed. */
  lemma RefsAt(was: seq<Slot>, now: seq<Slot>, x: nat, d: Deed)
    requires x < |was| == |now| && (d == Neither || d.slot == x)
    requires forall y | 0 <= y < |was| && y != x ::
        now[y].key == was[y].key && now[y].charge == was[y].charge && now[y].meta == was[y].meta
    requires RespectsAt(Items(was)[x], Items(now)[x], Change(d, x))
    ensures KeepsRefs(was, now, d)
  {
    forall y | 0 <= y < |was| && y != x ensures Items(now)[y] == Items(was)[y] {
    }
  }

  lemma RefsSame(was: seq<Slot>, now: seq<Slot>)
    requires now == was || SameContents(now, was)
    ensures KeepsRefs(was, now, Neither)
  {
    assert Items(now) == Items(was);
  }

  ghost predicate NoneMatch(mem: seq<Slot>, key: HashedKey) {
    forall x | 0 <= x < |mem| :: !Matches(mem[x], key)
  }

  lemma UntouchedNone(now: seq<Slot>, was: seq<Slot>, key: HashedKey)
    requires Untouched(now, was)
    ensures NoneMatch(now, key) <==> NoneMatch(was, key)
  {
    forall x | 0 <= x < |now| ensures Matches(now[x], key) == Matches(was[x], key) {
    }
  }

  /** A match can only be on the chain of the key's home. */
  lemma MatchOnChain(mem: seq<Slot>, length: nat, chains: seq<seq<nat>>, key: HashedKey)
    requires TableOk(mem, length, chains) && HomeOf(length, key.lo) < length
    requires var c := chains[HomeOf(length,
        key.lo)]; forall i | 0 <= i < |c| :: c[i] < |mem| && !Matches(mem[c[i]], key)
    ensures NoneMatch(mem, key)
  {
    hide HomeOf, HeadShift, Chained, ChainOk;
    forall x | 0 <= x < |mem| ensures !Matches(mem[x], key) {
      SlotAt(mem, length, chains, x);
    }
  }

  /** Memory with a reference held on slot `h`, if any. */
  function Held(mem: seq<Slot>, h: int): seq<Slot>
    requires h < |mem|
  {
    if h < 0 then mem else mem[h := Acquired(mem[h])]
  }

  ghost function SplitFor(mem: seq<Slot>, length: nat): SplitModel.Split
    requires length >= 1
  {
    ChainSplit.SplitOf(mem, HomeAt(length, FloorLog2(length)), length, FloorLog2(length))
  }

  lemma SplitForIs(mem: seq<Slot>, length: nat)
    requires length >= 1
    ensures SplitFor(mem, length) == ChainSplit.SplitOf(mem, HomeAt(length, FloorLog2(length)), length,
        FloorLog2(length))
  {
  }

  /** The chains after taking one more slot into use. */
  ghost function Split(mem: seq<Slot>, length: nat, chains: seq<seq<nat>>): seq<seq<nat>>
    requires length >= 1
  {
    var c, h := SplitFor(mem, length), HomeAt(length, FloorLog2(length));
    if h < |chains| then chains[h := ChainSplit.Only(c, chains[h], false)] + [ChainSplit.Only(c, chains[h], true)]
        else chains
  }

  lemma OldHomeIs(length: nat)
    requires length >= 2
    ensures HomeAt(length, FloorLog2(length)) == OldHome(length) < Pow2(FloorLog2(length)) <= length
    ensures length == OldHome(length) + Pow2(FloorLog2(length))
        && HeadShift(length, OldHome(length)) == FloorLog2(length)
  {
    GrowHeadShifts(length, 0);
    ModUnique(length, Pow2(FloorLog2(length)), 1, length - Pow2(FloorLog2(length)));
  }

  lemma SplitStarts(mem: seq<Slot>, length: nat, chains: seq<seq<nat>>)
    requires TableOk(mem, length, chains) && length < |mem|
    ensures var c, h := SplitFor(mem, length), HomeAt(length, FloorLog2(length));
      && h < length && SplitModel.ViewOk(c, ChainSplit.Start(chains[h]))
          && SplitModel.Rendered(c, ChainSplit.Start(chains[h]), mem)
  {
    hide HomeOf, HeadShift, FloorLog2, SlotOk, OldHome;
    OldHomeIs(length);
    var c, h := SplitFor(mem, length), OldHome(length);
    ChainAt(mem, length, chains, h);
    var chain := chains[h];
    forall i | 0 <= i < |chain| ensures c.Belongs(chain[i]) {
      GrowMoves(length, mem[chain[i]].key.lo);
    }
  }

  lemma {:induction false} WalksAt(c: SplitModel.Split, mem: seq<Slot>, link: Link, path: seq<nat>, n: nat, home: nat,
      i: nat)
    requires SplitReaders.Walks(c, mem, link, path, n, home) && n > |path| && i <= |path|
    ensures i > 0 ==> path[i - 1] < |mem|
    ensures var l := if i == 0 then link else mem[path[i - 1]].chain;
      && l.shift == c.NewShift() && l.end == (i == |path|) && l.next == if i < |path| then path[i] else home
    decreases |path|
  {
    if path != [] && i > 0 {
      WalksAt(c, mem, mem[path[0]].chain, path[1..], n - 1, home, i - 1);
    }
  }

  /** A finished chain is a chain like any other, under the new shift. */
  lemma FinishedChained(c: SplitModel.Split, mem: seq<Slot>, home: nat, path: seq<nat>)
    requires ChainSplit.Finished(c, mem, home, path)
    ensures Chained(mem, home, c.NewShift(), path, false)
  {
    hide SplitReaders.Walks;
    WalksAt(c, mem, mem[home].head, path, |path| + 1, home, 0);
    forall i | 0 <= i < |path| ensures path[i] < |mem|
        && mem[path[i]].chain == LinkAt(path, i + 1, home, c.NewShift()) {
      WalksAt(c, mem, mem[home].head, path, |path| + 1, home, i + 1);
    }
  }

  lemma {:induction false} OnlyHas(c: SplitModel.Split, s: seq<nat>, b: bool, e: nat)
    ensures e in ChainSplit.Only(c, s, b) <==> e in s && c.Bit(e) == b
  {
    if s != [] {
      OnlyHas(c, s[1..], b, e);
    }
  }

  lemma NothingArrived(c: SplitModel.Split, original: seq<nat>, early: seq<nat>, late: seq<nat>, b: bool)
    requires early + late + [] == []
    ensures ChainSplit.SplitChain(c, original, early, late, b) == ChainSplit.Only(c, original, b)
  {
    assert early == [] && late == [];
    assert [] + original == original;
  }

  /** The chain of `h` after the split, for `h` one of the two homes. */
  lemma SplitHome(mem: seq<Slot>, length: nat, now: seq<Slot>, chain: seq<nat>, b: bool)
    requires 2 <= length < |mem| && ChainOk(mem, length, OldHome(length), chain)
    requires |now| == |mem| && forall x | 0 <= x < |mem| :: now[x].meta == mem[x].meta && now[x].key == mem[x].key
    requires ChainSplit.Finished(SplitFor(mem, length), now, if b then length
        else OldHome(length), ChainSplit.Only(SplitFor(mem, length), chain, b))
    ensures ChainOk(now, length + 1, if b then length
        else OldHome(length), ChainSplit.Only(SplitFor(mem, length), chain, b))
  {
    hide HomeOf, HeadShift, FloorLog2, OldHome, ChainSplit.Only, ChainSplit.Finished;
    var c, h := SplitFor(mem, length), if b then length else OldHome(length);
    var path := ChainSplit.Only(c, chain, b);
    FinishedChained(c, now, h, path);
    OldHomeIs(length);
    GrowHeadShifts(length, h);
    forall i | 0 <= i < |path| ensures path[i] < length + 1 && now[path[i]].meta.Shareable()
        && Home(length + 1, now[path[i]]) == h {
      OnlyHas(c, chain, b, path[i]);
      var j :| 0 <= j < |chain| && chain[j] == path[i];
      GrowMoves(length, mem[chain[j]].key.lo);
    }
  }

  /** A chain that has no part in the split. */
  lemma SplitElsewhere(mem: seq<Slot>, length: nat, now: seq<Slot>, chain: seq<nat>, h: nat, touched: set<nat>)
    requires 2 <= length < |mem| && h < length && h != OldHome(length) && ChainOk(mem, length, h, chain)
    requires |now| == |mem| && forall x | 0 <= x < |mem| :: now[x].meta == mem[x].meta && now[x].key == mem[x].key
    requires now[h].head == mem[h].head && forall x | 0 <= x < |mem| && x !in touched :: now[x].chain == mem[x].chain
    requires forall e | e in touched :: e < |mem| && Home(length, mem[e]) == OldHome(length)
    ensures ChainOk(now, length + 1, h, chain)
  {
    hide HomeOf, HeadShift, OldHome, LinkAt;
    GrowHeadShifts(length, h);
    forall i | 0 <= i < |chain| ensures now[chain[i]].chain == mem[chain[i]].chain
        && Home(length + 1, now[chain[i]]) == h {
      GrowMoves(length, mem[chain[i]].key.lo);
    }
  }

  lemma SplitSlot(mem: seq<Slot>, length: nat, chains: seq<seq<nat>>, now: seq<Slot>, x: nat)
    requires 2 <= length == |chains| && length < |mem| && x < |mem| == |now| && SlotOk(mem, length, chains, x)
        && OldHome(length) < length
    requires now[x].meta == mem[x].meta && now[x].key == mem[x].key
    ensures SlotOk(now, length + 1, Split(mem, length, chains), x)
  {
    hide HomeOf, FloorLog2, ChainSplit.Only;
    if mem[x].meta.Shareable() {
      OldHomeIs(length);
      GrowMoves(length, mem[x].key.lo);
      var c, h := SplitFor(mem, length), OldHome(length);
      OnlyHas(c, chains[h], false, x);
      OnlyHas(c, chains[h], true, x);
    }
  }

  lemma SplitEnds(mem: seq<Slot>, length: nat, chains: seq<seq<nat>>, now: seq<Slot>, early: seq<nat>, late: seq<nat>,
      v: SplitModel.View, touched: set<nat>)
    requires TableOk(mem, length, chains) && length < |mem| && HomeAt(length, FloorLog2(length)) < |chains|
    requires early + late + [] == [] && touched == (set e | e in chains[HomeAt(length,
        FloorLog2(length))]) + (set e | e in [])
    requires var c, h := SplitFor(mem, length), HomeAt(length, FloorLog2(length));
      && ChainSplit.Finished(c, now, h, ChainSplit.SplitChain(c, chains[h], early, late, false))
      && ChainSplit.Finished(c, now, length, ChainSplit.SplitChain(c, chains[h], early, late, true))
      && ChainSplit.Framed(c, touched, v, [], mem, now)
    ensures TableOk(now, length + 1, Split(mem, length, chains)) && SameContents(now, mem)
  {
    hide HomeOf, HeadShift, FloorLog2, ChainSplit.Only, ChainSplit.Finished, ChainOk, SlotOk, OldHome;
    OldHomeIs(length);
    var c, h := SplitFor(mem, length), OldHome(length);
    NothingArrived(c, chains[h], early, late, false);
    NothingArrived(c, chains[h], early, late, true);
    ChainAt(mem, length, chains, h);
    Touched(mem, length, h, chains[h]);
    var chains', l := Split(mem, length, chains), length + 1;
    forall g | 0 <= g < l ensures ChainOk(now, l, g, chains'[g]) {
      if g == h {
        SplitHome(mem, length, now, chains[h], false);
      } else if g == length {
        SplitHome(mem, length, now, chains[h], true);
      } else {
        ChainAt(mem, length, chains, g);
        SplitElsewhere(mem, length, now, chains[g], g, touched);
      }
    }
    forall x | 0 <= x < |now| ensures SlotOk(now, l, chains', x) {
      SlotAt(mem, length, chains, x);
      SplitSlot(mem, length, chains, now, x);
    }
  }

  lemma Touched(mem: seq<Slot>, length: nat, h: nat, chain: seq<nat>)
    requires length >= 2 && ChainOk(mem, length, h, chain)
    ensures forall e | e in chain :: e < |mem| && Home(length, mem[e]) == h
  {
    hide HomeOf, HeadShift, Chained;
  }

  /** The slots differ in links at most. */
  ghost predicate SameContents(now: seq<Slot>, was: seq<Slot>) {
    && |now| == |was|
    && forall x | 0 <= x < |now| :: now[x] == was[x].(head := now[x].head, chain := now[x].chain)
  }

  lemma Entries(now: seq<Slot>, was: seq<Slot>)
    requires SameContents(now, was)
    ensures |now| == |was| && forall x | 0 <= x < |now| ::
        now[x].meta == was[x].meta && now[x].charge == was[x].charge && now[x].key == was[x].key
  {
  }

  function Pushed(chains: seq<seq<nat>>, h: nat, x: nat): seq<seq<nat>> {
    if h < |chains| then chains[h := [x] + chains[h]] else chains
  }

  lemma FilledHead(mem: seq<Slot>, idx: nat, e: NewEntry, h: nat)
    requires idx < |mem| && e.countdown >= 1 && h < |mem|
    ensures mem[idx := Filled(mem[idx], e)][h].head == mem[h].head
  {
  }

  /** Linking a filled slot at its home's head keeps every populated slot on its home's chain. */
  lemma LinkedIn(base: seq<Slot>, length: nat, chains: seq<seq<nat>>, idx: nat, e: NewEntry)
    requires TableOk(base, length, chains) && idx < length && base[idx].meta.state.Empty? && e.countdown >= 1
    ensures var h, s := HomeOf(length, e.key.lo), ShiftOf(length, e.key.lo);
      && h < length && base[h].head.shift == s
      && var mem := base[idx := Filled(base[idx], e)];
         var now := WithHead(WithChain(mem, idx, base[h].head), h, Make(idx, s));
         && TableOk(now, length, Pushed(chains, h, idx)) && SameContents(now, mem)
         && now[idx].meta == Filled(base[idx], e).meta
  {
    hide HomeOf, ShiftOf, HeadShift, Chained, ChainOk, SlotOk;
    var h, s := HomeOf(length, e.key.lo), ShiftOf(length, e.key.lo);
    HomeExists(base, length, chains, e.key);
    HomeInRange(length, e.key.lo);
    HeadIs(base, length, chains, h);
    var mem := base[idx := Filled(base[idx], e)];
    var now := WithHead(WithChain(mem, idx, base[h].head), h, Make(idx, s));
    var chains' := Pushed(chains, h, idx);
    forall g | 0 <= g < length ensures ChainOk(now, length, g, chains'[g]) {
      ChainAt(base, length, chains, g);
      if g == h {
        PushedChain(base, length, h, chains[h], idx, e);
      } else {
        KeptChain(base, now, length, g, chains[g], idx);
      }
    }
    forall x | 0 <= x < |now| ensures SlotOk(now, length, chains', x) {
      SlotAt(base, length, chains, x);
      PushedSlot(base, now, length, chains, h, idx, x);
    }
  }

  /** The head of a home carries the home's shift. */
  lemma HeadIs(mem: seq<Slot>, length: nat, chains: seq<seq<nat>>, h: nat)
    requires TableOk(mem, length, chains) && h < length
    ensures mem[h].head == LinkAt(chains[h], 0, h, HeadShift(length, h)) && mem[h].head.shift == HeadShift(length, h)
  {
    hide HomeOf, HeadShift, SlotOk;
    ChainAt(mem, length, chains, h);
  }

  lemma PushedChain(base: seq<Slot>, length: nat, h: nat, chain: seq<nat>, idx: nat, e: NewEntry)
    requires 2 <= length <= |base| && h < length && idx < length && ChainOk(base, length, h, chain)
        && !base[idx].meta.Shareable() && e.countdown >= 1
    requires HomeOf(length, e.key.lo) == h && HeadShift(length, h) == ShiftOf(length, e.key.lo)
    ensures var mem := base[idx := Filled(base[idx], e)];
      ChainOk(WithHead(WithChain(mem, idx, base[h].head), h, Make(idx, ShiftOf(length, e.key.lo))), length, h,
          [idx] + chain)
  {
    hide HomeOf, ShiftOf, HeadShift;
    var mem, s := base[idx := Filled(base[idx], e)], HeadShift(length, h);
    assert idx !in chain;
    assert Chained(mem, h, s, chain, false);
    ChainedPush(mem, h, s, chain, false, idx);
  }

  /** A chain whose head and links are as before. */
  lemma KeptChain(mem: seq<Slot>, now: seq<Slot>, length: nat, g: nat, chain: seq<nat>, idx: nat)
    requires length >= 2 && ChainOk(mem, length, g, chain) && |now| == |mem| && idx < |mem|
        && !mem[idx].meta.Shareable()
    requires now[g].head == mem[g].head
    requires forall x | 0 <= x < |mem| && x != idx :: now[x].(head := mem[x].head) == mem[x]
    ensures ChainOk(now, length, g, chain)
  {
    hide HomeOf, HeadShift, LinkAt;
    forall i | 0 <= i < |chain| ensures now[chain[i]].(head := mem[chain[i]].head) == mem[chain[i]] {
    }
  }

  lemma PushedSlot(base: seq<Slot>, now: seq<Slot>, length: nat, chains: seq<seq<nat>>, h: nat, idx: nat, x: nat)
    requires length >= 2 && |now| == |base| && x < |base| && idx < |base| && SlotOk(base, length, chains, x)
    requires h < |chains| && now[idx].meta.Shareable() && Home(length, now[idx]) == h
    requires x != idx ==> now[x].meta == base[x].meta && now[x].key == base[x].key
    ensures SlotOk(now, length, Pushed(chains, h, idx), x)
  {
    hide HomeOf;
    if x == idx {
      assert ([idx] + chains[h])[0] == idx;
    }
  }

  /** What is being inserted. */
  datatype NewEntry = NewEntry(key: HashedKey, charge: nat, countdown: nat)

  /** Slots tried one by one after the home. */
  const PROBES := 4

  /** A slot holding the new entry, visible and with the inserter's reference. */
  function Filled(s: Slot, e: NewEntry): Slot
    requires e.countdown >= 1
  {
    s.(key := e.key, charge := e.charge, meta := Meta(e.countdown, e.countdown - 1, false, Visible))
  }

  function Boosted(s: Slot, n: nat): Slot {
    s.(meta := s.meta.(acquire := s.meta.acquire + n, release := s.meta.release + n))
  }

  ghost predicate Tried(mem: seq<Slot>, key: HashedKey, x: nat) {
    x < |mem| && !mem[x].meta.state.Empty? && !Matches(mem[x], key)
  }

  ghost predicate TriedBelow(mem: seq<Slot>, key: HashedKey, n: nat) {
    forall x | 0 <= x < n :: Tried(mem, key, x)
  }

  lemma TriedThere(mem: seq<Slot>, key: HashedKey, n: nat, x: nat)
    requires x < n
    ensures TriedBelow(mem, key, n) ==> Tried(mem, key, x)
  {
  }

  /** A search ended in an empty slot or at a match. */
  ghost predicate Found(was: seq<Slot>, now: seq<Slot>, length: nat, e: NewEntry, idx: int, matches: bool, at: nat) {
    && e.countdown >= 1 && length <= |was|
    && if idx >= 0 then
         idx < length && !matches && was[idx].meta.state.Empty? && now == was[idx := Filled(was[idx], e)]
       else
         at < length && matches && Matches(was[at], e.key) && now == was[at := Boosted(was[at], e.countdown)]
  }

  /** A search ended in an empty slot, or at a match, or having tried every slot below `reach`. */
  ghost predicate SearchResult(was: seq<Slot>, now: seq<Slot>, length: nat, e: NewEntry, idx: int, matches: bool,
      at: nat, reach: nat) {
    if idx >= 0 || matches then
      Found(was, now, length, e, idx, matches, at)
    else
      now == was && reach <= |was| && TriedBelow(was, e.key, reach)
  }

  /** The first `n` circles have been tried. */
  ghost predicate Rounds(mem: seq<Slot>, key: HashedKey, c: AutoProbe.Cycle, from: nat, n: nat) {
    forall j | 0 <= j < n :: Round(mem, key, c, from, j)
  }

  ghost predicate Round(mem: seq<Slot>, key: HashedKey, c: AutoProbe.Cycle, from: nat, j: nat) {
    Part(mem, key, c, from + j, c.d - 1)
  }

  function Steps(n: nat, d: nat): nat { n * d }

  /** Positions up to `k` of a circle have been tried. */
  ghost predicate Part(mem: seq<Slot>, key: HashedKey, c: AutoProbe.Cycle, start: nat, k: int) {
    c.length > 0 && forall q | 0 <= q <= k :: Tried(mem, key, AutoProbe.Pos(start, c.incr, c.length, q))
  }

  lemma SearchStarts(mem: seq<Slot>, key: HashedKey, c: AutoProbe.Cycle, from: nat)
    requires AutoProbe.CycleOk(c) && from < c.length && Tried(mem, key, from)
    ensures AutoProbe.Pos(from + 0, c.incr, c.length, 0) == from
    ensures Rounds(mem, key, c, from, 0) && Part(mem, key, c, from + 0, 0) && Steps(0, c.d) == 0 && c.d > 0
        && c.incr < c.length
  {
    hide Tried;
    ModUnique(from, c.length, 0, from);
    assert from + 0 * c.incr == from;
  }

  /** One jump: the next position, which is the start again exactly when the circle is complete; and
      the start of the next circle is one further. */
  lemma SearchStep(c: AutoProbe.Cycle, from: nat, n: nat, k: nat)
    requires AutoProbe.CycleOk(c) && k < c.d
    ensures var idx, start := AutoProbe.Pos(from + n, c.incr, c.length, k),
        AutoProbe.Pos(from + n, c.incr, c.length, 0);
      && AutoProbe.Pos(from + n, c.incr, c.length, k + 1) == (if idx + c.incr >= c.length then idx + c.incr - c.length
          else idx + c.incr)
      && (AutoProbe.Pos(from + n, c.incr, c.length, k + 1) == start <==> k + 1 == c.d)
      && AutoProbe.Pos(from + (n + 1), c.incr, c.length, 0) == (if start + 1 >= c.length then start + 1 - c.length
          else start + 1)
      && AutoProbe.Pos(from + n, c.incr, c.length, k + 1) < c.length
          && AutoProbe.Pos(from + (n + 1), c.incr, c.length, 0) < c.length
      && Steps(n + 1, c.d) == Steps(n, c.d) + c.d
  {
    AutoProbe.NextPos(from + n, c.incr, c.length, k);
    AutoProbe.FirstReturn(c, from + n, k + 1);
    NextStart(from + n, c.incr, c.length);
  }

  lemma NextStart(s: nat, incr: nat, length: nat)
    requires length >= 2
    ensures var start := AutoProbe.Pos(s, incr, length, 0);
      AutoProbe.Pos(s + 1, incr, length, 0) == if start + 1 >= length then start + 1 - length else start + 1
  {
    assert s + 0 * incr == s && s + 1 + 0 * incr == s + 1;
    NextIndex(s, length);
  }

  lemma NextIndex(s: nat, length: nat)
    requires length >= 2
    ensures (s + 1) % length == if s % length + 1 >= length then s % length + 1 - length else s % length + 1
  {
    var start := s % length;
    ModAddMod(s, 1, length);
    if start + 1 >= length {
      ModUnique(start + 1, length, 1, 0);
    } else {
      ModUnique(start + 1, length, 0, start + 1);
    }
  }

  lemma RoundDone(mem: seq<Slot>, key: HashedKey, c: AutoProbe.Cycle, from: nat, n: nat)
    requires Rounds(mem, key, c, from, n) && Part(mem, key, c, from + n, c.d - 1)
    ensures Rounds(mem, key, c, from, n + 1)
  {
    hide Part;
    assert Round(mem, key, c, from, n);
  }

  lemma TriedOne(mem: seq<Slot>, key: HashedKey, c: AutoProbe.Cycle, start: nat, k: nat)
    requires c.length > 0 && (k > 0 ==> Part(mem, key, c, start, k - 1))
        && Tried(mem, key, AutoProbe.Pos(start, c.incr, c.length, k))
    ensures Part(mem, key, c, start, k)
  {
    hide Tried, AutoProbe.Pos;
  }

  lemma AllTried(mem: seq<Slot>, key: HashedKey, c: AutoProbe.Cycle, from: nat, n: nat)
    requires AutoProbe.CycleOk(c) && Rounds(mem, key, c, from, n) && n >= c.g
    ensures TriedBelow(mem, key, c.length)
  {
    hide Tried, AutoProbe.Pos, AutoProbe.CycleOk, Part, Rounds;
    forall x | 0 <= x < c.length ensures Tried(mem, key, x) {
      var j, k := AutoProbe.Covered(c, from, x);
      TriedAt(mem, key, c, from, n, j, k);
    }
  }

  /** A search with the right length throughout has tried every slot. */
  lemma TriedAtOnce(mem: seq<Slot>, key: HashedKey, c: AutoProbe.Cycle, from: nat, n: nat)
    requires AutoProbe.CycleOk(c) && Rounds(mem, key, c, from, n) && 3 + Steps(n, c.d) >= 2 * c.length
    ensures TriedBelow(mem, key, c.length)
  {
    AutoProbe.EnoughCircles(c, n, 3);
    AllTried(mem, key, c, from, n);
  }

  /** What `n` circles in the first `lag` slots leave to do. */
  ghost predicate Turned(c: AutoProbe.Cycle, from: nat, n: nat, start: nat) {
    && AutoProbe.CycleOk(c) && from < c.length && n >= 1 && start == AutoProbe.Pos(from + n, c.incr, c.length, 0)
    && (n > 1 ==> 3 + Steps(n - 1, c.d) < c.length)
  }

  lemma TurnedInTime(c: AutoProbe.Cycle, from: nat, n: nat, start: nat)
    requires Turned(c, from, n, start)
    ensures Steps(n, c.d) <= c.length
  {
    AutoProbe.FirstCircles(c, n);
  }

  lemma TurnedOnce(c: AutoProbe.Cycle, from: nat, n: nat, start: nat)
    requires Turned(c, from, n, start) && 2 * c.incr == c.length + 1
    ensures n == c.g == 1 && Steps(n, c.d) == c.length
    ensures start == if from + 1 == c.length then 0 else from + 1
  {
    AutoProbe.OneCircle(c);
    AutoProbe.FirstCircles(c, n);
    NextStart(from, c.incr, c.length);
    ModUnique(from, c.length, 0, from);
    assert from + 0 * c.incr == from;
  }

  /** A search that turned from a length too small to the right one has tried every slot, or, if it was a
      blind one, every slot but the last. */
  lemma TriedInTwo(mem: seq<Slot>, key: HashedKey, c: AutoProbe.Cycle, from: nat, n: nat, start: nat,
      c': AutoProbe.Cycle, n': nat)
    requires Turned(c, from, n, start) && Rounds(mem, key, c, from, n)
    requires AutoProbe.CycleOk(c') && c'.incr == c.incr && c.length < c'.length && Rounds(mem, key, c', start, n')
    requires 3 + Steps(n, c.d) + Steps(n', c'.d) >= 2 * c'.length
    ensures TriedBelow(mem, key, if AutoProbe.Blind(c.length, c'.length, c.incr, from) then c.length else c'.length)
  {
    hide Tried, AutoProbe.Pos, Part, Rounds;
    AutoProbe.FirstCircles(c, n);
    if c.length + 1 == c'.length && 2 * c.incr == c'.length {
      TurnedOnce(c, from, n, start);
      AllTried(mem, key, c, from, n);
      AutoProbe.HalfTable(c');
      if !AutoProbe.Blind(c.length, c'.length, c.incr, from) {
        var j, k := AutoProbe.LastSlot(c', start);
        TriedAt(mem, key, c', start, n', j, k);
      }
    } else {
      AutoProbe.EnoughCircles(c', n', 3 + Steps(n, c.d));
      AllTried(mem, key, c', start, n');
    }
  }

  /** What a blind search looks at once it has turned is below the length it began with. */
  lemma BlindToLast(c: AutoProbe.Cycle, from: nat, n: nat, start: nat, c': AutoProbe.Cycle, n': nat, k': nat)
    requires Turned(c, from, n, start) && AutoProbe.CycleOk(c') && c'.incr == c.incr && k' < c'.d
    requires AutoProbe.Blind(c.length, c'.length, c.incr, from)
    requires n' > 0 ==> 3 + Steps(n, c.d) + Steps(n', c'.d) < 2 * c'.length
    ensures AutoProbe.Pos(start + n', c'.incr, c'.length, k') < c.length
  {
    hide AutoProbe.Pos;
    TurnedOnce(c, from, n, start);
    AutoProbe.HalfTable(c');
    AutoProbe.LastSlotMissed(c', start, n', k');
    PosInRange(start + n', c'.incr, c'.length, k');
  }

  lemma PosInRange(start: nat, incr: nat, length: nat, k: nat)
    requires length > 0
    ensures AutoProbe.Pos(start, incr, length, k) < length
  {
  }

  lemma TriedAt(mem: seq<Slot>, key: HashedKey, c: AutoProbe.Cycle, from: nat, n: nat, j: nat, k: nat)
    requires Rounds(mem, key, c, from, n) && j < n && k < c.d && c.length > 0
    ensures Tried(mem, key, AutoProbe.Pos(from + j, c.incr, c.length, k))
  {
    hide Tried, AutoProbe.Pos;
    assert Round(mem, key, c, from, j);
  }

  /** An insert of this hash whose search, begun with length `lag`, never looks at the last slot. */
  predicate BlindFor(hash: nat, lag: nat, length: nat)
    requires lag >= 2
  {
    AutoProbe.Blind(lag, length, AutoProbe.Increment(hash, lag), (HomeOf(lag, hash) + PROBES) % lag)
  }

  /** The slots that a search begun with length `lag` looks at if it has to. */
  function Reach(hash: nat, lag: nat, length: nat): nat
    requires lag >= 2
  {
    if BlindFor(hash, lag, length) then lag else length
  }

  lemma ReachFrom(hash: nat, lag: nat, length: nat)
    requires lag >= 2
    ensures var from := (HomeOf(lag, hash) + PROBES) % lag;
      var blind := AutoProbe.Blind(lag, length, AutoProbe.Increment(hash, lag), from);
      BlindFor(hash, lag, length) == blind && Reach(hash, lag, length) == if blind then lag else length
  {
  }

  /** There is such an insert: hash 3, begun with five slots in use and ended with six. */
  lemma BlindCase()
    ensures BlindFor(3, 5, 6)
  {
    assert AutoProbe.Increment(3, 5) == 3;
    assert FloorLog2(5) == 2 && Pow2(2) == 4;
    assert HomeOf(5, 3) == 3;
  }

  lemma EndsWith(mem: seq<Slot>, length: nat, e: NewEntry, x: nat)
    requires e.countdown >= 1 && x < length <= |mem|
    ensures mem[x].meta.state.Empty? ==> Found(mem, mem[x := Filled(mem[x], e)], length, e, x, false, x)
    ensures Matches(mem[x], e.key) ==> Found(mem, mem[x := Boosted(mem[x], e.countdown)], length, e, -1, true, x)
    ensures Tried(mem, e.key, x) <==> !mem[x].meta.state.Empty? && !Matches(mem[x], e.key)
  {
  }

  lemma LaggingHome(mem: seq<Slot>, length: nat, chains: seq<seq<nat>>, key: HashedKey, lag: nat)
    requires TableOk(mem, length, chains) && 2 <= lag <= length
    ensures HomeAt(key.lo, ShiftOf(lag, key.lo)) < |mem|
  {
    hide HomeAt, ShiftOf, ChainOk, SlotOk;
    LaggingShift(lag, length, key.lo);
    StaleHomeIsPassed(length, key.lo, ShiftOf(lag, key.lo));
  }

  lemma UntouchedHeld(now: seq<Slot>, was: seq<Slot>, x: nat)
    requires Untouched(now, was) && x < |now| && now[x].meta.Shareable()
    ensures now[x] == was[x] && Untouched(Held(now, x), Held(was, x))
  {
  }

  lemma HomeExists(mem: seq<Slot>, length: nat, chains: seq<seq<nat>>, key: HashedKey)
    requires TableOk(mem, length, chains)
    ensures HomeOf(length, key.lo) < |chains| == length
  {
    hide ChainOk, SlotOk;
    HomeInRange(length, key.lo);
  }

  lemma HeldTwice(mem: seq<Slot>, h: int, x: nat)
    requires -1 <= h < |mem| && x < |mem| && h != x
    ensures Held(Held(mem, h), x) == Held(Held(mem, x), h)
  {
  }

  lemma FoundOne(mem: seq<Slot>, x: nat, key: HashedKey)
    requires x < |mem| && Matches(mem[x], key)
    ensures !NoneMatch(mem, key)
  {
  }

  lemma SearchedNone(mem: seq<Slot>, chain: seq<nat>, key: HashedKey)
    ensures Searched(mem, chain, key, 0)
  {
  }

  lemma SearchedOne(mem: seq<Slot>, chain: seq<nat>, key: HashedKey, i: nat)
    requires Searched(mem, chain, key, i) && i < |chain| && chain[i] < |mem| && !Matches(mem[chain[i]], key)
    ensures Searched(mem, chain, key, i + 1)
  {
  }

  lemma AllSearched(mem: seq<Slot>, length: nat, chains: seq<seq<nat>>, key: HashedKey)
    requires TableOk(mem, length, chains) && HomeOf(length, key.lo) < |chains|
    requires Searched(mem, chains[HomeOf(length, key.lo)], key, |chains[HomeOf(length, key.lo)]|)
    ensures NoneMatch(mem, key)
  {
    hide TableOk, HomeOf;
    TableSize(mem, length, chains);
    MatchOnChain(mem, length, chains, key);
  }

  lemma TableSize(mem: seq<Slot>, length: nat, chains: seq<seq<nat>>)
    requires TableOk(mem, length, chains)
    ensures 2 <= length <= |mem| && |chains| == length
  {
  }

  /** What a lookup reads next: while its shift lags, a head with a newer shift; then, link by link, the
      chain of the key's home. */
  lemma LinkRead(mem: seq<Slot>, length: nat, chains: seq<seq<nat>>, key: HashedKey, shift: nat, i: nat)
    requires TableOk(mem, length, chains) && shift <= ShiftOf(length, key.lo) && HomeOf(length, key.lo) < |chains|
    requires i <= |chains[HomeOf(length, key.lo)]| && (shift < ShiftOf(length, key.lo) ==> i == 0)
    ensures var home, chain := HomeAt(key.lo, shift), chains[HomeOf(length, key.lo)];
      && home < |mem| && (i > 0 ==> chain[i - 1] < |mem| && mem[chain[i - 1]].meta.Shareable())
      && var next := if i > 0 then mem[chain[i - 1]].chain else mem[home].head;
         if shift < ShiftOf(length, key.lo) then next.shift != shift
         else
           && next.shift == shift && next.end == (i == |chain|) && shift > 0
           && (i < |chain| ==>
               next.next == chain[i] < |mem| && mem[chain[i]].meta.Shareable()
               && HomeAt(mem[chain[i]].key.lo, shift) == home)
           && (i > 0 && i < |chain| ==> chain[i] != chain[i - 1])
  {
    hide HomeAt, ShiftOf, HeadShift, HomeOf, SlotOk;
    var hash, target := key.lo, HomeOf(length, key.lo);
    HomeInRange(length, hash);
    StaleHomeIsPassed(length, hash, shift);
    SomeBits(length, hash);
    ChainAt(mem, length, chains, HomeAt(hash, shift));
    ChainAt(mem, length, chains, target);
    SameHome(length, hash);
    var chain := chains[target];
    if i < |chain| {
      HomeInRange(length, mem[chain[i]].key.lo);
      SameHome(length, mem[chain[i]].key.lo);
    }
  }

  lemma SameHome(length: nat, hash: nat)
    requires length >= 2
    ensures HomeOf(length, hash) == HomeAt(hash, ShiftOf(length, hash))
  {
  }

  lemma SomeBits(length: nat, hash: nat)
    requires length >= 2
    ensures ShiftOf(length, hash) > 0
  {
    assert Pow2(0) == 1 && Pow2(1) == 2;
  }

  /** No visible entry with the key among the first `n` of a chain. */
  ghost predicate Searched(mem: seq<Slot>, chain: seq<nat>, key: HashedKey, n: nat) {
    n <= |chain| && forall i | 0 <= i < n :: chain[i] < |mem| && !Matches(mem[chain[i]], key)
  }

  // ---------------------------------------------------------------------------------------
  // Taking entries off their chains

  /** Memory in which the given slots are already marked empty. */
  ghost function Cleared(mem: seq<Slot>, owned: set<nat>): (r: seq<Slot>)
    ensures |r| == |mem| && forall x | 0 <= x < |mem| ::
        r[x] == if x in owned then mem[x].(meta := EMPTY_META) else mem[x]
  {
    seq(|mem|, x requires 0 <= x < |mem| => if x in owned then mem[x].(meta := EMPTY_META) else mem[x])
  }

  /** In order but for some slots that are unlinked, owned by this thread and still to be marked empty. */
  ghost predicate Owing(mem: seq<Slot>, length: nat, chains: seq<seq<nat>>, owned: set<nat>) {
    && (forall e | e in owned :: e < |mem| && mem[e].meta.state.Construction?)
    && TableOk(Cleared(mem, owned), length, chains)
  }

  /** The chains without some entries of the chain of `h`. */
  ghost function Removed(chains: seq<seq<nat>>, h: nat, gone: set<nat>): seq<seq<nat>> {
    if h < |chains| then chains[h := Only(chains[h], Elems(chains[h]) - gone)] else chains
  }

  lemma OwingNone(mem: seq<Slot>, length: nat, chains: seq<seq<nat>>)
    ensures Owing(mem, length, chains, {}) <==> TableOk(mem, length, chains)
  {
    assert Cleared(mem, {}) == mem;
  }

  lemma OwingEnds(mem: seq<Slot>, length: nat, chains: seq<seq<nat>>, owned: set<nat>)
    requires Owing(mem, length, chains, owned)
    ensures TableOk(Cleared(mem, owned), length, chains)
  {
  }

  /** Entries change only by becoming owned. */
  ghost predicate Taken(mem: seq<Slot>, now: seq<Slot>, gone: set<nat>) {
    && |now| == |mem|
    && forall x | 0 <= x < |mem| ::
         && now[x].key == mem[x].key
         && if x in gone then mem[x].meta.Shareable() && now[x].meta.state.Construction?
            else
              && now[x].meta.Shareable() == mem[x].meta.Shareable()
              && now[x].meta.state.Empty? == mem[x].meta.state.Empty?
  }

  lemma ShiftRead(mem: seq<Slot>, length: nat, chains: seq<seq<nat>>, hash: nat, shift: nat)
    requires TableOk(mem, length, chains) && shift <= ShiftOf(length, hash)
    ensures var home := HomeAt(hash, shift);
      && home < length <= |mem| && mem[home].head.shift >= shift
          && (mem[home].head.shift == shift <==> shift == ShiftOf(length, hash))
      && (shift == ShiftOf(length, hash) ==> home == HomeOf(length, hash) && shift == HeadShift(length, home))
  {
    hide HomeAt, ShiftOf, HeadShift, HomeOf, SlotOk;
    HomeInRange(length, hash);
    StaleHomeIsPassed(length, hash, shift);
    SameHome(length, hash);
    TableSize(mem, length, chains);
    HeadIs(mem, length, chains, HomeAt(hash, shift));
  }

  lemma NoneElems()
    ensures Elems([]) == {}
  {
  }

  lemma PurgeStarts(base: seq<Slot>, length: nat, chains: seq<seq<nat>>, h: nat, x: nat, m: Meta)
    requires TableOk(base, length, chains) && h < length && x < |base| && m.state.Construction?
    ensures h < |chains| && Chained(WithMeta(base, x, m), h, HeadShift(length, h), chains[h], false)
    ensures ScriptOk(WithMeta(base, x, m), chains[h], [])
    ensures forall i | 0 <= i < |chains[h]| ::
        chains[h][i] < |base| && !WithMeta(base, x, m)[chains[h][i]].meta.state.Empty?
  {
    hide HomeOf, HeadShift, SlotOk, Chained;
    ChainAt(base, length, chains, h);
    ChainedMeta(base, h, HeadShift(length, h), chains[h], false, x, m);
  }

  /** What is left of a chain is what was not taken. */
  lemma LeftOver(mem: seq<Slot>, now: seq<Slot>, all: seq<nat>, chain: seq<nat>, gone: set<nat>)
    requires Taken(mem, now, gone) && Account(now, all, chain) && forall e | e in chain :: e !in gone
    requires forall e | e in all :: e < |mem| && mem[e].meta.Shareable()
    ensures chain == Only(all, Elems(all) - gone) && Elems(chain) == Elems(all) - gone
  {
    hide Only, NoDup;
    ChainElems(all, chain);
    assert Elems(chain) == Elems(all) - gone;
  }

  /** A chain with its own head and links as before, and no entry taken. */
  lemma ChainStays(mem: seq<Slot>, now: seq<Slot>, length: nat, g: nat, chain: seq<nat>, h: nat, all: seq<nat>,
      gone: set<nat>)
    requires length >= 2 && ChainOk(mem, length, g, chain) && g != h && Local(mem, now, h, all)
        && Taken(mem, now, gone) && gone <= Elems(all)
    requires forall e | e in all :: e < |mem| && Home(length, mem[e]) == h
    ensures ChainOk(Cleared(now, gone), length, g, chain)
  {
    hide HomeOf, HeadShift, LinkAt, Cleared;
    forall i | 0 <= i < |chain| ensures chain[i] !in all {
    }
  }

  lemma ChainLeft(mem: seq<Slot>, now: seq<Slot>, length: nat, h: nat, all: seq<nat>, chain: seq<nat>, gone: set<nat>)
    requires length >= 2 && ChainOk(mem, length, h, all) && Taken(mem, now, gone) && Account(now, all, chain)
    requires Chained(now, h, HeadShift(length, h), chain, false) && forall e | e in chain :: e !in gone
    ensures ChainOk(Cleared(now, gone), length, h, chain)
  {
    hide HomeOf, HeadShift, LinkAt, Cleared, NoDup, Only;
    ChainElems(all, chain);
    forall i | 0 <= i < |chain| ensures chain[i] in all && chain[i] !in gone {
    }
  }

  lemma SlotLeft(mem: seq<Slot>, now: seq<Slot>, length: nat, chains: seq<seq<nat>>, h: nat, gone: set<nat>, x: nat)
    requires length >= 2 && x < |mem| && SlotOk(mem, length, chains, x) && Taken(mem, now, gone) && h < |chains|
    requires Elems(Only(chains[h], Elems(chains[h]) - gone)) == Elems(chains[h]) - gone
    ensures SlotOk(Cleared(now, gone), length, Removed(chains, h, gone), x)
  {
    hide HomeOf, Cleared, Only;
    if x in chains[h] && x !in gone {
      assert x in Elems(Only(chains[h], Elems(chains[h]) - gone));
    }
  }

  /** Purging one chain leaves the table in order, but for marking the taken entries empty. */
  lemma PurgedOne(mem: seq<Slot>, length: nat, chains: seq<seq<nat>>, h: nat, now: seq<Slot>, chain: seq<nat>,
      gone: set<nat>)
    requires TableOk(mem, length, chains) && h < length && Local(mem, now, h, chains[h]) && Taken(mem, now, gone)
        && gone <= Elems(chains[h])
    requires Chained(now, h, HeadShift(length, h), chain, false) && Account(now, chains[h], chain)
        && forall e | e in chain :: e !in gone
    ensures Owing(now, length, Removed(chains, h, gone), gone) && chain == Removed(chains, h, gone)[h]
  {
    hide HomeOf, HeadShift, Chained, ChainOk, SlotOk, Only, Account, Cleared;
    ChainAt(mem, length, chains, h);
    Members(mem, length, h, chains[h]);
    LeftOver(mem, now, chains[h], chain, gone);
    var chains', after := Removed(chains, h, gone), Cleared(now, gone);
    forall g | 0 <= g < length ensures ChainOk(after, length, g, chains'[g]) {
      ChainAt(mem, length, chains, g);
      if g == h {
        ChainLeft(mem, now, length, h, chains[h], chain, gone);
      } else {
        ChainStays(mem, now, length, g, chains[g], h, chains[h], gone);
      }
    }
    forall x | 0 <= x < |after| ensures SlotOk(after, length, chains', x) {
      SlotAt(mem, length, chains, x);
      SlotLeft(mem, now, length, chains, h, gone, x);
    }
  }

  lemma Members(mem: seq<Slot>, length: nat, h: nat, chain: seq<nat>)
    requires length >= 2 && ChainOk(mem, length, h, chain)
    ensures forall e | e in chain :: e < |mem| && mem[e].meta.Shareable() && Home(length, mem[e]) == h
  {
    hide HomeOf, HeadShift, Chained;
  }

  /** Erasing one entry: it was taken before its chain was purged of it. */
  lemma RemovedOne(base: seq<Slot>, length: nat, chains: seq<seq<nat>>, x: nat, mem: seq<Slot>, now: seq<Slot>,
      chain: seq<nat>, h: nat)
    requires TableOk(base, length, chains) && x < |base| == |mem| && base[x].meta.Shareable()
        && h == Home(length, base[x]) < |chains| == length
    requires mem == WithMeta(base, x, mem[x].meta) && mem[x].meta.state.Construction?
    requires Local(mem, now, h, chains[h]) && Alone(mem, now, chains[h], {}) && SameEntries(mem, now)
    requires Chained(now, h, HeadShift(length, h), chain, false) && Account(now, chains[h], chain)
        && Clear(chain, Dead(mem, chains[h]), [])
    ensures Owing(now, length, Removed(chains, h, {x}), {x}) && SameContents(now, mem)
  {
    hide HomeOf, HeadShift, Chained, TableOk, Only, Account, Owing, Removed;
    OneChain(base, length, chains, x, h);
    PurgedOne(base, length, chains, h, now, chain, {x});
  }

  // ---------------------------------------------------------------------------------------
  // Creation

  const ZEROED := Slot(UNUSED, UNUSED, HashedKey(0, 0), 0, EMPTY_META)

  /** A slot when the first `i` homes, and those a generation further on, have been given their heads. */
  function HeadTo(used: nat, minShift: nat, i: nat, x: nat): Slot {
    if x < i then ZEROED.(head := MakeEnd(x, if Pow2(minShift) + x < used then minShift + 1 else minShift))
    else if Pow2(minShift) <= x < used && x < Pow2(minShift) + i then ZEROED.(head := MakeEnd(x, minShift + 1))
    else ZEROED
  }

  lemma Created(mem: seq<Slot>, used: nat, chains: seq<seq<nat>>)
    requires 2 <= used <= |mem| && chains == seq(used, _ => [])
    requires forall x | 0 <= x < |mem| :: mem[x] == HeadTo(used, FloorLog2(used), Pow2(FloorLog2(used)), x)
    ensures TableOk(mem, used, chains)
  {
    forall h | 0 <= h < used ensures ChainOk(mem, used, h, chains[h]) {
      assert chains[h] == [];
    }
  }

  // ---------------------------------------------------------------------------------------
  // Erasing

  function Hidden(m: Meta): Meta { if m.Shareable() then m.(state := Invisible) else m }

  function Released(m: Meta, useful: bool): Meta
    requires m.Refcount() > 0
  {
    if useful then m.(release := m.release + 1) else m.(acquire := m.acquire - 1)
  }

  lemma Settled(base: seq<Slot>, mid: seq<Slot>, length: nat, chains: seq<seq<nat>>, x: nat)
    requires Owing(mid, length, chains, {x}) && x < |base|
        && SameContents(mid, WithMeta(base, x, Meta(0, 0, false, Construction)))
    ensures TableOk(Cleared(mid, {x}), length, chains) && SameContents(Cleared(mid, {x}), WithMeta(base, x, EMPTY_META))
  {
    hide TableOk;
  }

  /** The same entry, or both empty. */
  predicate Alike(a: Slot, b: Slot) {
    if b.meta.state.Empty? then a.meta.state.Empty? else a.meta == b.meta && a.key == b.key && a.charge == b.charge
  }

  function Erased(s: Slot): Slot { s.(meta := if s.meta.Refcount() == 0 then EMPTY_META else Hidden(s.meta)) }

  ghost predicate ErasedSome(now: seq<Slot>, was: seq<Slot>, key: HashedKey) {
    && |now| == |was|
    && forall x | 0 <= x < |now| :: Alike(now[x], was[x]) || (Matches(was[x], key) && Alike(now[x], Erased(was[x])))
  }

  /** Exactly the visible entries with the key are erased. */
  ghost predicate ErasedFrom(now: seq<Slot>, was: seq<Slot>, key: HashedKey) {
    && |now| == |was|
    && forall x | 0 <= x < |now| :: Alike(now[x], if Matches(was[x], key) then Erased(was[x]) else was[x])
  }

  ghost function Matching(mem: seq<Slot>, key: HashedKey): set<nat> {
    set x: nat | x < |mem| && Matches(mem[x], key)
  }

  lemma ErasedNone(mem: seq<Slot>, key: HashedKey)
    ensures ErasedSome(mem, mem, key)
  {
  }

  lemma ErasedHeld(was: seq<Slot>, before: seq<Slot>, held: seq<Slot>, key: HashedKey)
    requires ErasedSome(before, was, key) && Untouched(held, before)
    ensures ErasedSome(held, was, key) && (NoneMatch(before, key) ==> NoneMatch(held, key))
  {
    UntouchedNone(held, before, key);
  }

  lemma ErasedAll(now: seq<Slot>, was: seq<Slot>, key: HashedKey)
    requires ErasedSome(now, was, key) && NoneMatch(now, key)
    ensures ErasedFrom(now, was, key)
  {
    forall x | 0 <= x < |now| && Matches(was[x], key) ensures Alike(now[x], Erased(was[x])) {
      assert !Matches(now[x], key);
    }
  }

  lemma RefsErased(was: seq<Slot>, now: seq<Slot>, key: HashedKey)
    requires ErasedFrom(now, was, key)
    ensures KeepsRefs(was, now, Neither)
  {
    forall x | 0 <= x < |was| ensures RespectsAt(Items(was)[x], Items(now)[x], 0) {
      assert Alike(now[x], if Matches(was[x], key) then Erased(was[x]) else was[x]);
    }
  }

  lemma MatchHeld(before: seq<Slot>, held: seq<Slot>, h: nat, key: HashedKey)
    requires h < |before| && Matches(before[h], key) && Untouched(held, Held(before, h))
    ensures |held| == |before| && held[h] == Acquired(before[h])
  {
  }

  lemma EraseEnds(before: seq<Slot>, held: seq<Slot>, now: seq<Slot>, h: nat, gone: bool)
    requires h < |before| == |held| && before[h].meta.state.Visible? && held[h] == Acquired(before[h])
        && gone == (before[h].meta.Refcount() == 0)
    requires if gone then SameContents(now, WithMeta(held, h, EMPTY_META))
        else now == WithMeta(held, h, Hidden(before[h].meta))
    ensures SameContents(now, held[h := Erased(before[h])])
  {
  }

  /** One round of Erase takes one match away. */
  lemma ErasedOne(was: seq<Slot>, before: seq<Slot>, held: seq<Slot>, now: seq<Slot>, key: HashedKey, h: nat)
    requires ErasedSome(before, was, key) && h < |before| && Matches(before[h], key) && Untouched(held, Held(before, h))
    requires SameContents(now, held[h := Erased(before[h])])
    ensures ErasedSome(now, was, key) && Matching(now, key) < Matching(before, key)
  {
    assert h in Matching(before, key) && h !in Matching(now, key);
    forall x | 0 <= x < |now| && x != h ensures Alike(now[x], before[x])
        && Matches(now[x], key) == Matches(before[x], key) {
      assert held[x] == before[x] || before[x].meta.state.Empty?;
    }
  }

  // ---------------------------------------------------------------------------------------
  // Evicting

  /** The clock pointer's modulus, reconsidered at the start of each pass. */
  function NextMajor(clock: nat, major: nat, lag: nat): nat
    requires major > 0 && lag >= 2
  {
    if clock % major == 0 then Pow2(FloorLog2(lag)) else major
  }

  /** The run sees every home, and the clock pointer's modulus is that of the length it sees. */
  predicate InSight(clock: nat, major: nat, lag: nat, length: nat)
    requires major > 0 && lag >= 2
  {
    lag == length >= STEP && NextMajor(clock, major, lag) == Pow2(FloorLog2(lag))
  }

  lemma NextMajorPositive(clock: nat, major: nat, lag: nat)
    requires major > 0 && lag >= 2
    ensures NextMajor(clock, major, lag) > 0
  {
  }

  /** Every entry has had a clock update each time that the tour came by its home. */
  ghost predicate Ticked(was: seq<Slot>, now: seq<Slot>, length: nat, tour: seq<nat>) {
    && length >= 2 && |now| == |was|
    && forall x | 0 <= x < |was| :: TickedAt(was[x], now[x], multiset(tour)[Home(length, was[x])])
  }

  ghost predicate TickedAt(was: Slot, now: Slot, k: nat) {
    now.key == was.key && now.charge == was.charge && now.meta == Ticks(was.meta, k)
  }

  /** The list names, once each, exactly the entries that are gone. */
  ghost predicate Gone(was: seq<Slot>, now: seq<Slot>, freed: seq<nat>) {
    && |now| == |was| && NoDup(freed)
    && forall x: nat :: x in freed <==> x < |was| && was[x].meta.Shareable() && !now[x].meta.Shareable()
  }

  /** How long an entry lives, whatever the tour: it survives as many visits as its countdown says, but three
      at most, is reported with the next one, and stays for good while it is referenced. */
  lemma ExactLife(was: seq<Slot>, now: seq<Slot>, length: nat, tour: seq<nat>, freed: seq<nat>, x: nat)
    requires Ticked(was, now, length, tour) && Gone(was, now, freed) && x < |was| && was[x].meta.Shareable()
    ensures var m, visits := was[x].meta, multiset(tour)[Home(length, was[x])];
      && (x in freed <==> m.Refcount() == 0 && visits > (if m.state.Invisible? then 0
            else if m.acquire < MAX_COUNTDOWN then m.acquire else MAX_COUNTDOWN))
      && (m.Refcount() != 0 ==> now[x].meta == m)
      && now[x].key == was[x].key && now[x].charge == was[x].charge
      && (x !in freed ==> now[x].meta.state == m.state && now[x].meta.Refcount() == m.Refcount())
  {
    hide HomeOf;
    var k := multiset(tour)[Home(length, was[x])];
    assert TickedAt(was[x], now[x], k);
    LifeIsExact(was[x].meta, k);
  }

  lemma RefsTicked(was: seq<Slot>, now: seq<Slot>, length: nat, tour: seq<nat>)
    requires Ticked(was, now, length, tour)
    ensures KeepsRefs(was, now, Neither)
  {
    hide HomeOf;
    forall x | 0 <= x < |was| ensures RespectsAt(Items(was)[x], Items(now)[x], 0) {
      var k := multiset(tour)[Home(length, was[x])];
      assert TickedAt(was[x], now[x], k);
      if was[x].meta.Shareable() {
        LifeIsExact(was[x].meta, k);
      }
    }
  }

  /** What insertion gives an entry to live on: referenced it stays; else it survives one visit less than the
      countdown it was given, but three at most. */
  lemma InsertedLife(was: seq<Slot>, now: seq<Slot>, length: nat, tour: seq<nat>, freed: seq<nat>, x: nat,
      countdown: nat, keepRef: bool)
    requires Ticked(was, now, length, tour) && Gone(was, now, freed) && x < |was| && countdown >= 1
    requires was[x].meta.state.Visible? && was[x].meta.release == countdown - 1
    requires was[x].meta.Refcount() == if keepRef then 1 else 0
    ensures x in freed <==>
        !keepRef && multiset(tour)[Home(length, was[x])] > (if countdown <= MAX_COUNTDOWN then countdown - 1
            else MAX_COUNTDOWN)
  {
    hide HomeOf, Ticked, Gone;
    ExactLife(was, now, length, tour, freed, x);
  }

  lemma TickedNone(mem: seq<Slot>, length: nat)
    requires length >= 2
    ensures Ticked(mem, mem, length, []) && Gone(mem, mem, []) && Charges(mem, []) == 0
  {
    hide HomeOf;
  }

  lemma {:induction false} TicksAdd(m: Meta, i: nat, j: nat)
    ensures Ticks(Ticks(m, i), j) == Ticks(m, i + j)
  {
    if j > 0 {
      TicksAdd(m, i, j - 1);
    }
  }

  lemma TickedMore(a: seq<Slot>, b: seq<Slot>, c: seq<Slot>, length: nat, s: seq<nat>, t: seq<nat>)
    requires Ticked(a, b, length, s) && Ticked(b, c, length, t)
    ensures Ticked(a, c, length, s + t)
  {
    hide HomeOf, Ticks;
    forall x | 0 <= x < |a| ensures TickedAt(a[x], c[x], multiset(s + t)[Home(length, a[x])]) {
      var i, j := multiset(s)[Home(length, a[x])], multiset(t)[Home(length, a[x])];
      assert TickedAt(a[x], b[x], i) && Home(length, b[x]) == Home(length, a[x]) && TickedAt(b[x], c[x], j);
      TicksAdd(a[x].meta, i, j);
      assert multiset(s + t) == multiset(s) + multiset(t);
    }
  }

  lemma GoneMore(a: seq<Slot>, b: seq<Slot>, c: seq<Slot>, length: nat, tour: seq<nat>, s: seq<nat>, t: seq<nat>)
    requires Gone(a, b, s) && Gone(b, c, t) && Ticked(b, c, length, tour)
    requires forall x | 0 <= x < |a| :: a[x].charge == b[x].charge && (b[x].meta.Shareable() ==> a[x].meta.Shareable())
    ensures Gone(a, c, s + t) && Charges(a, s + t) == Charges(a, s) + Charges(b, t)
  {
    hide HomeOf, Ticks, Charges, NoDup;
    ChargesConcat(a, b, s, t);
    forall x: nat | x < |b| && !b[x].meta.Shareable() ensures !c[x].meta.Shareable() {
      assert TickedAt(b[x], c[x], multiset(tour)[Home(length, b[x])]);
      NothingToUpdate(b[x].meta, multiset(tour)[Home(length, b[x])]);
    }
    NoDupConcat(s, t);
  }

  lemma TickedKeeps(a: seq<Slot>, b: seq<Slot>, length: nat, tour: seq<nat>)
    requires Ticked(a, b, length, tour)
    ensures forall x | 0 <= x < |a| ::
        a[x].charge == b[x].charge && (b[x].meta.Shareable() ==> a[x].meta.Shareable())
  {
    hide HomeOf;
    forall x | 0 <= x < |a| ensures a[x].charge == b[x].charge && (b[x].meta.Shareable() ==> a[x].meta.Shareable()) {
      var k := multiset(tour)[Home(length, a[x])];
      assert TickedAt(a[x], b[x], k);
      if !a[x].meta.Shareable() {
        NothingToUpdate(a[x].meta, k);
      }
    }
  }

  /** The referenced entries of a home. */
  ghost function PinnedAt(mem: seq<Slot>, length: nat, h: nat): set<nat>
    requires length >= 2
  {
    set x: nat | x < |mem| && Pinned(mem[x].meta) && Home(length, mem[x]) == h
  }

  /** The referenced entries that a tour meets. */
  ghost function PinnedMet(mem: seq<Slot>, length: nat, tour: seq<nat>): nat
    requires length >= 2
  {
    if tour == [] then 0
    else PinnedMet(mem, length, tour[..|tour| - 1]) + |PinnedAt(mem, length, tour[|tour| - 1])|
  }

  lemma {:induction false} PinnedMetMore(a: seq<Slot>, b: seq<Slot>, length: nat, seen: seq<nat>, s: seq<nat>,
      t: seq<nat>)
    requires Ticked(a, b, length, seen)
    ensures PinnedMet(a, length, s + t) == PinnedMet(a, length, s) + PinnedMet(b, length, t)
  {
    hide PinnedAt, Ticked;
    if t == [] {
      assert s + t == s;
    } else {
      var n := |t| - 1;
      assert (s + t)[..|s + t| - 1] == s + t[..n] && (s + t)[|s + t| - 1] == t[n];
      PinnedMetMore(a, b, length, seen, s, t[..n]);
      PinnedStay(a, b, length, seen, t[n]);
    }
  }

  lemma PinnedStay(a: seq<Slot>, b: seq<Slot>, length: nat, seen: seq<nat>, h: nat)
    requires Ticked(a, b, length, seen)
    ensures PinnedAt(a, length, h) == PinnedAt(b, length, h)
  {
    hide HomeOf, Ticks, Pinned;
    forall x: nat | x < |a| ensures Pinned(a[x].meta) == Pinned(b[x].meta) && Home(length, a[x]) == Home(length, b[x]) {
      var k := multiset(seen)[Home(length, a[x])];
      assert TickedAt(a[x], b[x], k);
      StaysPinned(a[x].meta, k);
    }
  }

  lemma {:induction false} PinnedCount(mem: seq<Slot>, s: seq<nat>)
    requires NoDup(s)
    ensures PinnedOn(mem, s) == |set x: nat | x in s && x < |mem| && Pinned(mem[x].meta)|
  {
    if s != [] {
      PinnedCount(mem, s[1..]);
      var rest := set x: nat | x in s[1..] && x < |mem| && Pinned(mem[x].meta);
      var all := set x: nat | x in s && x < |mem| && Pinned(mem[x].meta);
      assert s == [s[0]] + s[1..];
      assert s[0] !in s[1..];
      if s[0] < |mem| && Pinned(mem[s[0]].meta) {
        assert all == rest + {s[0]};
      } else {
        assert all == rest;
      }
    }
  }

  lemma PinnedOnChain(mem: seq<Slot>, length: nat, chains: seq<seq<nat>>, h: nat, x: nat)
    requires TableOk(mem, length, chains) && h < length == |chains|
    ensures x in chains[h] && x < |mem| && Pinned(mem[x].meta) <==> x in PinnedAt(mem, length, h)
  {
    hide HomeOf, TableOk;
    TableSize(mem, length, chains);
    if x < |mem| && mem[x].meta.Shareable() {
      OneChain(mem, length, chains, x, h);
    }
  }

  lemma {:induction false} PinnedOnSame(a: seq<Slot>, b: seq<Slot>, s: seq<nat>)
    requires |a| == |b| && forall e | e in s && e < |a| :: a[e].meta == b[e].meta
    ensures PinnedOn(a, s) == PinnedOn(b, s)
  {
    if s != [] {
      PinnedOnSame(a, b, s[1..]);
    }
  }

  lemma PinnedOne(mem: seq<Slot>, length: nat, h: nat)
    requires length >= 2
    ensures PinnedMet(mem, length, [h]) == |PinnedAt(mem, length, h)|
  {
    hide PinnedAt;
    assert [h][..0] == [];
  }

  /** The referenced entries counted on a chain are those of its home. */
  lemma PinnedOfHome(mem: seq<Slot>, length: nat, chains: seq<seq<nat>>, h: nat, owned: set<nat>)
    requires Owing(mem, length, chains, owned) && h < length == |chains|
    ensures length >= 2
    ensures PinnedOn(mem, chains[h]) == PinnedMet(Cleared(mem, owned), length, [h])
  {
    hide HomeOf, TableOk, Cleared, Pinned, PinnedAt, PinnedOn, PinnedMet, HeadShift, Chained, NoDup;
    var m0 := Cleared(mem, owned);
    TableSize(m0, length, chains);
    HomePurgeStarts(mem, length, chains, h, owned);
    ChainedOnce(mem, h, HeadShift(length, h), chains[h], false);
    OffChain(mem, length, chains, h, owned);
    PinnedOnSame(mem, m0, chains[h]);
    PinnedCount(m0, chains[h]);
    var on := set x: nat | x in chains[h] && x < |m0| && Pinned(m0[x].meta);
    forall x: nat ensures x in on <==> x in PinnedAt(m0, length, h) {
      PinnedOnChain(m0, length, chains, h, x);
    }
    assert on == PinnedAt(m0, length, h);
    PinnedOne(m0, length, h);
  }

  /** What is owned is on no chain. */
  lemma OffChain(mem: seq<Slot>, length: nat, chains: seq<seq<nat>>, h: nat, owned: set<nat>)
    requires Owing(mem, length, chains, owned) && h < length == |chains|
    ensures forall e | e in chains[h] :: e < |mem| && e !in owned && Cleared(mem, owned)[e] == mem[e]
  {
    hide HomeOf, HeadShift, SlotOk, Cleared, Chained;
    ChainAt(Cleared(mem, owned), length, chains, h);
    forall e | e in chains[h] ensures e < |mem| && e !in owned && Cleared(mem, owned)[e] == mem[e] {
      assert Cleared(mem, owned)[e].meta.Shareable();
    }
  }

  /** What an eviction run has achieved after a tour on which the listed entries went. */
  ghost function Charged(d: EvictionData, mem: seq<Slot>, length: nat, tour: seq<nat>, freed: seq<nat>): EvictionData
    requires length >= 2
  {
    EvictionData(d.freedCharge + Charges(mem, freed), d.freedCount + |freed|,
        d.seenPinned + PinnedMet(mem, length, tour))
  }

  lemma ChargedMore(d: EvictionData, a: seq<Slot>, b: seq<Slot>, length: nat, s: seq<nat>, t: seq<nat>, f: seq<nat>,
      g: seq<nat>)
    requires Ticked(a, b, length, s)
    ensures Charged(Charged(d, a, length, s, f), b, length, t, g) == Charged(d, a, length, s + t, f + g)
  {
    hide Ticked, Charges, PinnedMet;
    PinnedMetMore(a, b, length, s, s, t);
    TickedKeeps(a, b, length, s);
    TickedSize(a, b, length, s);
    ChargesConcat(a, b, f, g);
  }

  lemma TickedSize(a: seq<Slot>, b: seq<Slot>, length: nat, s: seq<nat>)
    requires Ticked(a, b, length, s)
    ensures |a| == |b| && length >= 2
  {
  }

  lemma {:induction false} ChargesCleared(mem: seq<Slot>, owned: set<nat>, s: seq<nat>)
    ensures Charges(Cleared(mem, owned), s) == Charges(mem, s)
  {
    if s != [] {
      ChargesCleared(mem, owned, s[..|s| - 1]);
    }
  }

  /** In the middle of a clock step: the entries taken so far are still to be marked empty. */
  ghost predicate Sweeping(was: seq<Slot>, mem: seq<Slot>, length: nat, chains: seq<seq<nat>>, before: EvictionData,
      data: EvictionData, taken: seq<nat>, tour: seq<nat>) {
    && Owing(mem, length, chains, Elems(taken)) && length >= 2
    && Ticked(was, Cleared(mem, Elems(taken)), length, tour) && Gone(was, Cleared(mem, Elems(taken)), taken)
    && data == Charged(before, was, length, tour, taken)
  }

  lemma SweepStarts(mem: seq<Slot>, length: nat, chains: seq<seq<nat>>, before: EvictionData)
    requires TableOk(mem, length, chains)
    ensures Sweeping(mem, mem, length, chains, before, before, [], [])
  {
    hide TableOk, Ticked, Gone;
    TableSize(mem, length, chains);
    assert Elems([]) == {};
    OwingNone(mem, length, chains);
    assert Cleared(mem, {}) == mem;
    TickedNone(mem, length);
  }

  lemma SweepOn(was: seq<Slot>, mem: seq<Slot>, length: nat, chains: seq<seq<nat>>, before: EvictionData,
      data: EvictionData, taken: seq<nat>, tour: seq<nat>)
    requires Sweeping(was, mem, length, chains, before, data, taken, tour)
    ensures Owing(mem, length, chains, Elems(taken)) && length >= 2
    ensures Ticked(was, Cleared(mem, Elems(taken)), length, tour) && Gone(was, Cleared(mem, Elems(taken)), taken)
    ensures data == Charged(before, was, length, tour, taken)
  {
  }

  lemma SweepMore(was: seq<Slot>, mid: seq<Slot>, now: seq<Slot>, length: nat, chains: seq<seq<nat>>,
      before: EvictionData, d: EvictionData, data: EvictionData, taken: seq<nat>, more: seq<nat>, tour: seq<nat>,
      h: nat)
    requires length >= 2 && Ticked(was, Cleared(mid, Elems(taken)), length, tour)
    requires Gone(was, Cleared(mid, Elems(taken)), taken) && d == Charged(before, was, length, tour, taken)
    requires Owing(now, length, chains, Elems(taken) + Elems(more))
    requires Ticked(Cleared(mid, Elems(taken)), Cleared(now, Elems(taken) + Elems(more)), length, [h])
    requires Gone(Cleared(mid, Elems(taken)), Cleared(now, Elems(taken) + Elems(more)), more)
    requires data == Charged(d, Cleared(mid, Elems(taken)), length, [h], more)
    ensures Sweeping(was, now, length, chains, before, data, taken + more, tour + [h])
  {
    hide TableOk, Ticked, Gone, Charged, Cleared, Owing;
    assert Elems(taken + more) == Elems(taken) + Elems(more);
    var b, c := Cleared(mid, Elems(taken)), Cleared(now, Elems(taken) + Elems(more));
    TickedMore(was, b, c, length, tour, [h]);
    TickedKeeps(was, b, length, tour);
    TickedSize(was, b, length, tour);
    GoneMore(was, b, c, length, [h], taken, more);
    ChargedMore(before, was, b, length, tour, [h], taken, more);
  }

  lemma HomePurgeStarts(mem: seq<Slot>, length: nat, chains: seq<seq<nat>>, h: nat, owned: set<nat>)
    requires Owing(mem, length, chains, owned) && h < length
    ensures h < |chains| == length && h < |mem| && Chained(mem, h, HeadShift(length, h), chains[h], false)
        && mem[h].head.shift == HeadShift(length, h)
    ensures ScriptOk(mem, chains[h], [])
    ensures forall i | 0 <= i < |chains[h]| :: chains[h][i] < |mem| && mem[chains[h][i]].meta.Shareable()
  {
    hide HomeOf, HeadShift, SlotOk, Cleared;
    ChainAt(Cleared(mem, owned), length, chains, h);
  }

  /** Purging a chain while some entries are owned already. */
  lemma PurgedMore(mem: seq<Slot>, length: nat, chains: seq<seq<nat>>, h: nat, now: seq<Slot>, chain: seq<nat>,
      gone: set<nat>, owned: set<nat>, evicted: seq<nat>)
    requires Owing(mem, length, chains, owned) && h < length == |chains| && Local(mem, now, h, chains[h])
        && Alone(mem, now, chains[h], gone)
    requires Chained(now, h, HeadShift(length, h), chain, false) && Account(now, chains[h], chain)
        && gone == Elems(evicted) && Clear(chain, Dead(mem, chains[h]), evicted)
    ensures Owing(now, length, Removed(chains, h, gone), owned + gone) && Elems(chain) == Elems(chains[h]) - gone
  {
    hide HomeOf, HeadShift, TableOk, Only, Removed, LinkAt, NoDup, Cleared;
    HomePurgeStarts(mem, length, chains, h, owned);
    var m0, n0 := Cleared(mem, owned), Cleared(now, owned);
    PurgedOne(m0, length, chains, h, n0, chain, gone);
    LeftOver(m0, n0, chains[h], chain, gone);
    assert Cleared(n0, gone) == Cleared(now, owned + gone);
  }

  /** Purging a chain with clock updates gives one to every entry of its home, and takes those that expire. */
  lemma PurgedTicks(mem: seq<Slot>, length: nat, chains: seq<seq<nat>>, h: nat, now: seq<Slot>, owned: set<nat>,
      evicted: seq<nat>)
    requires Owing(mem, length, chains, owned) && h < length == |chains| && Alone(mem, now, chains[h], Elems(evicted))
    requires NoDup(evicted) && forall e | e in evicted :: e in chains[h]
    requires forall e | e in chains[h] ::
      && e < |mem| && (e in evicted <==> Expired(mem[e].meta))
      && (e !in evicted ==> now[e].meta == Tick(mem[e].meta))
    ensures Ticked(Cleared(mem, owned), Cleared(now, owned + Elems(evicted)), length, [h])
    ensures Gone(Cleared(mem, owned), Cleared(now, owned + Elems(evicted)), evicted)
  {
    hide HomeOf, TableOk, Cleared, NoDup, Tick, Ticks, Expired, Alone;
    var m0, n0 := Cleared(mem, owned), Cleared(now, owned + Elems(evicted));
    TableSize(m0, length, chains);
    AloneSize(mem, now, chains[h], Elems(evicted));
    forall x: nat | x < |mem|
      ensures TickedAt(m0[x], n0[x], multiset([h])[Home(length, m0[x])])
      ensures x in evicted <==> m0[x].meta.Shareable() && !n0[x].meta.Shareable()
    {
      hide Owing;
      PurgedSlot(mem, length, chains, h, now, owned, evicted, x);
    }
  }

  lemma AloneSize(mem: seq<Slot>, now: seq<Slot>, all: seq<nat>, ours: set<nat>)
    requires Alone(mem, now, all, ours)
    ensures |now| == |mem|
  {
  }

  lemma PurgedSlot(mem: seq<Slot>, length: nat, chains: seq<seq<nat>>, h: nat, now: seq<Slot>, owned: set<nat>,
      evicted: seq<nat>, x: nat)
    requires Owing(mem, length, chains, owned) && h < length == |chains| && Alone(mem, now, chains[h], Elems(evicted))
    requires length >= 2 && x < |mem| == |now| && (x in evicted ==> x in chains[h])
    requires x in chains[h] ==>
        (x in evicted <==> Expired(mem[x].meta)) && (x !in evicted ==> now[x].meta == Tick(mem[x].meta))
    ensures var was, left := Cleared(mem, owned)[x], Cleared(now, owned + Elems(evicted))[x];
      && TickedAt(was, left, multiset([h])[Home(length, was)])
      && (x in evicted <==> was.meta.Shareable() && !left.meta.Shareable())
  {
    hide HomeOf, TableOk, Cleared, Tick, Ticks, Expired, TickedAt;
    var m0, n0 := Cleared(mem, owned), Cleared(now, owned + Elems(evicted));
    assert x in evicted <==> x in Elems(evicted);
    assert AloneAt(mem[x], now[x], x in chains[h], x in Elems(evicted));
    OffChain(mem, length, chains, h, owned);
    if m0[x].meta.Shareable() {
      OneChain(m0, length, chains, x, h);
    } else {
      NotOnChain(mem, length, chains, h, owned, x);
    }
    OneTick(m0[x].meta);
    PurgedTick(m0[x], n0[x], Home(length, m0[x]) == h, x in evicted);
  }

  lemma NotOnChain(mem: seq<Slot>, length: nat, chains: seq<seq<nat>>, h: nat, owned: set<nat>, x: nat)
    requires Owing(mem, length, chains, owned) && h < length == |chains| && x < |mem|
    requires !Cleared(mem, owned)[x].meta.Shareable()
    ensures x !in chains[h]
  {
    hide HomeOf, HeadShift, SlotOk, Cleared, Chained;
    ChainAt(Cleared(mem, owned), length, chains, h);
  }

  lemma PurgedTick(was: Slot, now: Slot, here: bool, gone: bool)
    requires now.key == was.key && now.charge == was.charge
    requires if was.meta.Shareable() && here then gone == Expired(was.meta) && now.meta == Tick(was.meta)
      else now.meta == was.meta && !gone
    ensures TickedAt(was, now, if here then 1 else 0)
    ensures gone <==> was.meta.Shareable() && !now.meta.Shareable()
  {
    hide Ticks, Tick, Expired;
    OneTick(was.meta);
  }

  lemma {:induction false} ChargesConcat(a: seq<Slot>, b: seq<Slot>, s: seq<nat>, t: seq<nat>)
    requires |a| == |b| && forall x | 0 <= x < |a| :: a[x].charge == b[x].charge
    ensures Charges(a, s + t) == Charges(a, s) + Charges(b, t)
  {
    if t == [] {
      assert s + t == s;
    } else {
      assert (s + t)[..|s + t| - 1] == s + t[..|t| - 1];
      ChargesConcat(a, b, s, t[..|t| - 1]);
    }
  }

  lemma ClearedNone(mem: seq<Slot>)
    ensures Cleared(mem, Elems([])) == mem
  {
  }

  lemma ClearedOne(mem: seq<Slot>, s: seq<nat>, k: nat)
    requires k < |s| && s[k] < |mem|
    ensures WithMeta(Cleared(mem, Elems(s[..k])), s[k], EMPTY_META) == Cleared(mem, Elems(s[..k + 1]))
  {
    assert s[..k + 1] == s[..k] + [s[k]];
  }

  // ---------------------------------------------------------------------------------------
  // A full eviction run

  /** The homes of one clock step that starts at home `base`, in the order visited: four at a time, in every
      generation of the mask. */
  function Tour(base: nat, major: nat, lag: nat): seq<nat>
    requires major > 0
    decreases if base < lag then lag - base else 0
  {
    if base >= lag then [] else Row(base, lag, STEP) + Tour(base + major, major, lag)
  }

  function Row(base: nat, lag: nat, n: nat): seq<nat> {
    if n == 0 then [] else if base + n <= lag then Row(base, lag, n - 1) + [base + n - 1] else Row(base, lag, n - 1)
  }

  /** The mask after `n` steps of a run, and the homes that these steps visit. */
  function MajorAt(clock: nat, major: nat, lag: nat, n: nat): (m: nat)
    requires major > 0 && lag >= 2
    ensures m > 0
  {
    if n == 0 then major else NextMajor(clock + STEP * (n - 1), MajorAt(clock, major, lag, n - 1), lag)
  }

  function Schedule(clock: nat, major: nat, lag: nat, n: nat): seq<nat>
    requires major > 0 && lag >= 2
  {
    if n == 0 then []
    else
      var m := MajorAt(clock, major, lag, n);
      Schedule(clock, major, lag, n - 1) + Tour((clock + STEP * (n - 1)) % m, m, lag)
  }

  lemma RowNone(base: nat, lag: nat, tour: seq<nat>)
    ensures tour == tour + Row(base, lag, 0)
  {
  }

  lemma RowMore(base: nat, lag: nat, i: nat)
    requires base + i < lag
    ensures Row(base, lag, i + 1) == Row(base, lag, i) + [base + i]
  {
  }

  lemma {:induction false} RowRest(base: nat, lag: nat, i: nat)
    requires lag <= base + i && i <= STEP
    ensures Row(base, lag, STEP) == Row(base, lag, i)
    decreases STEP - i
  {
    if i < STEP {
      RowRest(base, lag, i + 1);
    }
  }

  lemma TourOn(row: seq<nat>, base: nat, major: nat, lag: nat)
    requires major > 0 && base < lag
    ensures row + Tour(base, major, lag) == row + Row(base, lag, STEP) + Tour(base + major, major, lag)
  {
    hide Row;
    assert row + (Row(base, lag, STEP) + Tour(base + major, major, lag))
      == row + Row(base, lag, STEP) + Tour(base + major, major, lag);
  }

  lemma TourEnds(tour: seq<nat>, base: nat, major: nat, lag: nat)
    requires major > 0 && base >= lag
    ensures tour + Tour(base, major, lag) == tour
  {
  }

  /** After each step, the referenced entries met are those of the homes visited. */
  ghost predicate Booked(was: seq<Slot>, length: nat, clock: nat, major: nat, lag: nat, before: EvictionData,
      ledger: seq<EvictionData>) {
    && length >= 2 && major > 0 && lag >= 2
    && forall i | 0 <= i < |ledger| ::
         ledger[i].seenPinned == before.seenPinned + PinnedMet(was, length, Schedule(clock, major, lag, i + 1))
  }

  /** A run after some steps. */
  ghost predicate Running(was: seq<Slot>, mem: seq<Slot>, length: nat, clock: nat, major: nat, lag: nat,
      before: EvictionData, data: EvictionData, freed: seq<nat>, ledger: seq<EvictionData>, mask: nat) {
    && Booked(was, length, clock, major, lag, before, ledger) && mask == MajorAt(clock, major, lag, |ledger|)
    && var tour := Schedule(clock, major, lag, |ledger|);
       && Ticked(was, mem, length, tour) && Gone(was, mem, freed) && data == Charged(before, was, length, tour, freed)
  }

  lemma RunStarts(mem: seq<Slot>, length: nat, clock: nat, major: nat, lag: nat, before: EvictionData)
    requires length >= 2 && major > 0 && lag >= 2
    ensures Running(mem, mem, length, clock, major, lag, before, before, [], [], major)
  {
    hide Ticked, Gone;
    TickedNone(mem, length);
  }

  lemma RunStep(was: seq<Slot>, mid: seq<Slot>, now: seq<Slot>, length: nat, clock: nat, major: nat, lag: nat,
      before: EvictionData, d: EvictionData, data: EvictionData, freed: seq<nat>, more: seq<nat>,
      ledger: seq<EvictionData>, mask: nat)
    requires length >= 2 && major > 0 && lag >= 2 && mask > 0
    requires Running(was, mid, length, clock, major, lag, before, d, freed, ledger, mask)
    requires var start := clock + STEP * |ledger|;
      var m := NextMajor(start, mask, lag);
      && m > 0 && Ticked(mid, now, length, Tour(start % m, m, lag)) && Gone(mid, now, more)
      && data == Charged(d, mid, length, Tour(start % m, m, lag), more)
    ensures Running(was, now, length, clock, major, lag, before, data, freed + more, ledger + [data],
        NextMajor(clock + STEP * |ledger|, mask, lag))
  {
    hide Ticked, Gone, Charged, NextMajor, Tour, PinnedMet;
    var n, start := |ledger|, clock + STEP * |ledger|;
    var m := NextMajor(start, mask, lag);
    var tour, last := Schedule(clock, major, lag, n), Tour(start % m, m, lag);
    assert MajorAt(clock, major, lag, n + 1) == m && Schedule(clock, major, lag, n + 1) == tour + last;
    TickedMore(was, mid, now, length, tour, last);
    TickedKeeps(was, mid, length, tour);
    TickedSize(was, mid, length, tour);
    GoneMore(was, mid, now, length, last, freed, more);
    ChargedMore(before, was, mid, length, tour, last, freed, more);
    ChargedPinned(before, was, length, tour + last, freed + more);
    hide Schedule, MajorAt;
    forall i | 0 <= i < |ledger + [data]| ensures
      (ledger + [data])[i].seenPinned == before.seenPinned + PinnedMet(was, length, Schedule(clock, major, lag, i + 1))
    {
    }
  }

  lemma ChargedPinned(d: EvictionData, mem: seq<Slot>, length: nat, tour: seq<nat>, freed: seq<nat>)
    requires length >= 2
    ensures Charged(d, mem, length, tour, freed).seenPinned == d.seenPinned + PinnedMet(mem, length, tour)
  {
  }

  lemma RunEnds(was: seq<Slot>, mem: seq<Slot>, length: nat, clock: nat, major: nat, lag: nat,
      before: EvictionData, data: EvictionData, freed: seq<nat>, ledger: seq<EvictionData>, mask: nat)
    requires Running(was, mem, length, clock, major, lag, before, data, freed, ledger, mask)
    ensures length >= 2 && major > 0 && lag >= 2 && Booked(was, length, clock, major, lag, before, ledger)
    ensures |ledger| == 1 ==> mask == NextMajor(clock, major, lag)
    ensures var tour := Schedule(clock, major, lag, |ledger|);
      && Ticked(was, mem, length, tour) && Gone(was, mem, freed) && data == Charged(before, was, length, tour, freed)
  {
    hide Ticked, Gone, Charged, NextMajor, Schedule;
    if |ledger| == 1 {
      assert MajorAt(clock, major, lag, 0) == major && STEP * 0 == 0;
    }
  }

  lemma {:induction false} RowCount(base: nat, lag: nat, n: nat, h: nat)
    ensures multiset(Row(base, lag, n))[h] == if base <= h < base + n && h < lag then 1 else 0
  {
    if n > 0 {
      RowCount(base, lag, n - 1, h);
    }
  }

  /** From four slots on, a step visits once each home whose index falls into its range under the mask. */
  lemma {:induction false} TourOnce(start: nat, major: nat, base: nat, lag: nat, h: nat)
    requires major >= STEP && OnBase(start, major, base) && start % STEP == 0 == major % STEP
    ensures multiset(Tour(base, major, lag))[h] == if base <= h < lag && Hit(start, major, h) then 1 else 0
    decreases if base < lag then lag - base else 0
  {
    hide Hit, Row;
    if base < lag {
      NextBase(start, major, base);
      TourOnce(start, major, base + major, lag, h);
      RowCount(base, lag, STEP, h);
      if base <= h < base + STEP {
        HitRow(start, major, base, h);
      }
      assert multiset(Row(base, lag, STEP) + Tour(base + major, major, lag))
        == multiset(Row(base, lag, STEP)) + multiset(Tour(base + major, major, lag));
    }
  }

  lemma TourOnceAll(start: nat, major: nat, lag: nat, h: nat)
    requires major >= STEP && h < lag && start % STEP == 0 == major % STEP
    ensures multiset(Tour(start % major, major, lag))[h] == if Hit(start, major, h) then 1 else 0
  {
    hide Tour, Hit;
    Bases(start, major, start % major);
    TourOnce(start, major, start % major, lag, h);
  }

  /** The homes that a clock step starting at `start` comes by. */
  predicate Hit(start: nat, major: nat, h: nat)
    requires major > 0
  {
    start % major <= h % major < start % major + STEP
  }

  /** From one base home to the next, only the first few homes are hit. */
  lemma HitNear(start: nat, major: nat, base: nat, h: nat)
    requires major > 0 && base % major == start % major && base <= h < base + major && Hit(start, major, h)
    ensures h < base + STEP
  {
    var r, d := start % major, h - base;
    ModAddMod(base, d, major);
    if r + d < major {
      ModUnique(r + d, major, 0, r + d);
    } else {
      ModUnique(r + d, major, 1, r + d - major);
    }
  }

  /** No home before the first base home is hit. */
  lemma HitFrom(start: nat, major: nat, h: nat)
    requires major > 0 && Hit(start, major, h)
    ensures h >= start % major
  {
    if h < major {
      ModUnique(h, major, 0, h);
    }
  }

  /** The first homes from a base home on are hit, if the step is made of whole passes. */
  lemma HitRow(start: nat, major: nat, base: nat, h: nat)
    requires major >= STEP && start % STEP == 0 == major % STEP
    requires OnBase(start, major, base) && base <= h < base + STEP
    ensures Hit(start, major, h)
  {
    var q, d := major / STEP, h - base;
    var r, k := base % major, base / major;
    assert base == k * (STEP * q) + r && r % STEP == 0 by {
      WholeSteps(start, q);
    }
    assert r + d < major by {
      ModUnique(r, STEP, r / STEP, 0);
    }
    ModUnique(h, major, k, r + d);
  }

  lemma WholeSteps(x: nat, q: nat)
    requires q > 0 && x % STEP == 0
    ensures x % (STEP * q) % STEP == 0
  {
    var m := STEP * q;
    var k := x / m;
    assert x % m == STEP * (x / STEP - k * q) by {
      assert x == STEP * (x / STEP) && x == k * m + x % m && k * m == STEP * (k * q);
    }
    ModUnique(x % m, STEP, x / STEP - k * q, 0);
  }

  function Group(major: nat, h: nat): nat
    requires major > 0
  {
    h % major / STEP
  }

  /** In steps of four, the pointer comes by a home when its step number matches the home's group. */
  lemma HitGroup(t: nat, groups: nat, h: nat)
    requires groups > 0
    ensures Group(STEP * groups, h) < groups
    ensures Hit(STEP * t, STEP * groups, h) <==> t % groups == Group(STEP * groups, h)
  {
    var q, r, m := t / groups, t % groups, STEP * groups;
    assert STEP * t == q * m + STEP * r by {
      assert t == q * groups + r;
      assert STEP * (q * groups) == q * m;
    }
    ModUnique(STEP * t, m, q, STEP * r);
  }

  /** How often a run of steps `t` up to `u` has come by a home. */
  function Visits(groups: nat, t: nat, u: nat, h: nat): int
    requires groups > 0
  {
    HitGroup(0, groups, h);
    Turns(groups, u, Group(STEP * groups, h)) - Turns(groups, t, Group(STEP * groups, h))
  }

  lemma VisitsStep(groups: nat, t: nat, u: nat, h: nat)
    requires groups > 0
    ensures Visits(groups, t, u + 1, h) == Visits(groups, t, u, h) + if Hit(STEP * u, STEP * groups, h) then 1 else 0
  {
    hide Turns, Group, Hit;
    HitGroup(u, groups, h);
    TurnsStep(groups, u, Group(STEP * groups, h));
  }

  /** A run that sees the whole table, under its mask, comes by every home once in each pass. */
  lemma {:induction false} ScheduleVisits(clock: nat, major: nat, lag: nat, n: nat, h: nat)
    requires major > 0 && lag >= 2 && InSight(clock, major, lag, lag) && clock % STEP == 0 && h < lag
    ensures var pass := Pow2(FloorLog2(lag));
      && pass >= STEP && (n > 0 ==> MajorAt(clock, major, lag, n) == pass)
      && multiset(Schedule(clock, major, lag, n))[h] == Visits(pass / STEP, clock / STEP, clock / STEP + n, h)
  {
    hide Pow2, FloorLog2, Visits, Tour, Hit;
    Quarters(lag);
    var pass := Pow2(FloorLog2(lag));
    if n == 0 {
      VisitsNone(pass / STEP, clock / STEP, h);
    } else {
      ScheduleVisits(clock, major, lag, n - 1, h);
      var start := clock + STEP * (n - 1);
      StaysMajor(start, pass, lag);
      assert MajorAt(clock, major, lag, n) == pass;
      OneMoreStep(clock / STEP, n - 1, pass / STEP, lag, h);
      var before, last := Schedule(clock, major, lag, n - 1), Tour(start % pass, pass, lag);
      assert Schedule(clock, major, lag, n) == before + last;
      assert multiset(before + last) == multiset(before) + multiset(last);
    }
  }

  lemma OneMoreStep(t: nat, n: nat, groups: nat, lag: nat, h: nat)
    requires groups > 0 && h < lag
    ensures var start, pass := STEP * t + STEP * n, STEP * groups;
      Visits(groups, t, t + n + 1, h) == Visits(groups, t, t + n, h) + multiset(Tour(start % pass, pass, lag))[h]
  {
    hide Visits, Tour, Hit;
    var start := STEP * t + STEP * n;
    assert start == STEP * (t + n);
    TourOnceAll(start, STEP * groups, lag, h);
    VisitsStep(groups, t, t + n, h);
  }

  /** Whatever mask it was left with, the clock comes under that of the length within one pass. */
  lemma {:induction false} MaskFollows(clock: nat, major: nat, lag: nat, n: nat)
    requires major > 0 && lag >= 2
    requires exists k | 0 <= k < n :: (clock + STEP * k) % major == 0
    ensures MajorAt(clock, major, lag, n) == Pow2(FloorLog2(lag))
  {
    hide Pow2, FloorLog2;
    if k: nat :| k < n - 1 && (clock + STEP * k) % major == 0 {
      MaskFollows(clock, major, lag, n - 1);
    } else {
      MaskStays(clock, major, lag, n - 1);
    }
  }

  lemma {:induction false} MaskStays(clock: nat, major: nat, lag: nat, n: nat)
    requires major > 0 && lag >= 2 && forall k | 0 <= k < n :: (clock + STEP * k) % major != 0
    ensures MajorAt(clock, major, lag, n) == major
  {
    if n > 0 {
      MaskStays(clock, major, lag, n - 1);
    }
  }

  lemma VisitsNone(groups: nat, t: nat, h: nat)
    requires groups > 0
    ensures Visits(groups, t, t, h) == 0
  {
  }

  /** Four passes leave nothing that was unreferenced. */
  lemma AllGone(was: seq<Slot>, now: seq<Slot>, freed: seq<nat>, length: nat, clock: nat, major: nat, n: nat)
    requires major > 0 && length >= 2 && InSight(clock, major, length, length) && clock % STEP == 0
    requires Ticked(was, now, length, Schedule(clock, major, length, n)) && Gone(was, now, freed)
    requires STEP * n >= 4 * Pow2(FloorLog2(length))
    ensures forall x | 0 <= x < |was| && was[x].meta.Shareable() && was[x].meta.Refcount() == 0 :: x in freed
  {
    hide HomeOf, Turns, Group, Pow2, FloorLog2, Schedule, Ticked, Gone;
    var tour := Schedule(clock, major, length, n);
    forall x | 0 <= x < |was| && was[x].meta.Shareable() && was[x].meta.Refcount() == 0 ensures x in freed {
      var h := Home(length, was[x]);
      HomeInRange(length, was[x].key.lo);
      ScheduleVisits(clock, major, length, n, h);
      Quarters(length);
      var groups, t := Pow2(FloorLog2(length)) / STEP, clock / STEP;
      HitGroup(0, groups, h);
      TurnsTimes(groups, t, t + n, Group(STEP * groups, h), 4);
      ExactLife(was, now, length, tour, freed, x);
    }
  }

  ghost predicate OnBase(start: nat, major: nat, base: nat) {
    major > 0 && base % major == start % major
  }

  lemma Bases(start: nat, major: nat, base: nat)
    requires major > 0 && base == start % major
    ensures OnBase(start, major, base) && forall h | 0 <= h < base :: !Hit(start, major, h)
  {
    ModUnique(base, major, 0, base);
    forall h | 0 <= h < base && Hit(start, major, h) ensures false {
      HitFrom(start, major, h);
    }
  }

  lemma NextBase(start: nat, major: nat, base: nat)
    requires OnBase(start, major, base)
    ensures OnBase(start, major, base + major)
    ensures forall h | base <= h < base + major && Hit(start, major, h) :: h < base + STEP
  {
    ModAddMultiple(base, major, 1);
    forall h | base <= h < base + major && Hit(start, major, h) ensures h < base + STEP {
      HitNear(start, major, base, h);
    }
  }

  /** From four slots on, a pass is made of whole steps. */
  lemma Quarters(length: nat)
    requires length >= STEP
    ensures Pow2(FloorLog2(length)) == STEP * (Pow2(FloorLog2(length)) / STEP) && Pow2(FloorLog2(length)) >= STEP
  {
    var k := FloorLog2(length);
    assert Pow2(1) == 2 && Pow2(2) == 4;
    if k < 2 {
      assert false;
    }
    Pow2Adds(2, k - 2);
    ModUnique(Pow2(k), 4, Pow2(k - 2), 0);
  }

  lemma StaysMajor(clock: nat, major: nat, lag: nat)
    requires lag >= 2 && major == Pow2(FloorLog2(lag))
    ensures NextMajor(clock, major, lag) == major
  {
  }
}
