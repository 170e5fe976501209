/** What the memory of a chain looks like at each moment of AutoHyperClockTable::SplitForGrow.

    A split is described by the chain `base` that existed when the old head was republished, one
    frontier per target chain (an index into `base`), and the entries other threads have pushed
    in front of each target chain since. An entry of `base` before its own chain's frontier
    points, with the new shift, to the next entry of its own chain; every other entry of `base`
    still has the link it had before the split. */
module SplitModel {
  import opened Arith
  import opened Slots

  datatype Pair<+T> = Pair(zero: T, one: T) {
    function At(b: bool): T { if b then one else zero }
  }

  function Set<T>(p: Pair<T>, b: bool, x: T): Pair<T> {
    if b then Pair(p.zero, x) else Pair(x, p.one)
  }

  /** The fixed facts of one split: keys of all slots, the two homes and the shift left behind. */
  datatype Split = Split(keys: seq<HashedKey>, oldHome: nat, growHome: nat, oldShift: nat) {
    ghost predicate Ok() {
      && oldHome < growHome < |keys|
      && oldHome < Pow2(oldShift)
      && growHome == oldHome + Pow2(oldShift)
    }

    /** Entries whose home was the old home before the split. */
    ghost predicate Belongs(e: nat) {
      e < |keys| && keys[e].lo % Pow2(oldShift) == oldHome
    }

    function NewShift(): nat { oldShift + 1 }

    function Home(b: bool): nat { if b then growHome else oldHome }

    /** The next hash bit: false for the zero chain, true for the one chain. */
    predicate Bit(e: nat) {
      e < |keys| && keys[e].lo % Pow2(oldShift + 1) != oldHome
    }

    lemma BitHome(e: nat)
      requires Ok() && Belongs(e)
      ensures keys[e].lo % Pow2(oldShift + 1) == Home(Bit(e))
    {
      ModDouble(keys[e].lo, Pow2(oldShift));
    }
  }

  datatype View = View(published: bool, base: seq<nat>, frontier: Pair<nat>, pre: Pair<seq<nat>>, held: Pair<bool>)

  ghost function Present(v: View): set<nat> {
    (set e | e in v.base) + (set e | e in v.pre.zero) + (set e | e in v.pre.one)
  }

  // ---------------------------------------------------------------------------------------
  // Links prescribed by a view
  // ---------------------------------------------------------------------------------------

  /** First index at or after `i` whose entry goes to chain `b`, or the length if there is none. */
  function NextOf(c: Split, base: seq<nat>, i: nat, b: bool): (r: nat)
    requires i <= |base|
    ensures i <= r <= |base|
    ensures forall k | i <= k < r :: c.Bit(base[k]) != b
    ensures r < |base| ==> c.Bit(base[r]) == b
    decreases |base| - i
  {
    if i == |base| || c.Bit(base[i]) == b then i else NextOf(c, base, i + 1, b)
  }

  lemma NextOfUnique(c: Split, base: seq<nat>, i: nat, b: bool, r: nat)
    requires i <= r <= |base|
    requires forall k | i <= k < r :: c.Bit(base[k]) != b
    requires r < |base| ==> c.Bit(base[r]) == b
    ensures NextOf(c, base, i, b) == r
  {
  }

  /** The link, before the split, that leads to position `i` of the chain. */
  function OldLink(c: Split, base: seq<nat>, i: nat): Link
    requires i <= |base|
  {
    if i < |base| then Make(base[i], c.oldShift) else MakeEnd(c.oldHome, c.oldShift)
  }

  /** The new-shift link to position `i` as a member of chain `b`. */
  function NewLink(c: Split, base: seq<nat>, i: nat, b: bool): Link
    requires i <= |base|
  {
    if i < |base| then Make(base[i], c.NewShift()) else MakeEnd(c.Home(b), c.NewShift())
  }

  function LinkAt(c: Split, v: View, i: nat): Link
    requires i < |v.base|
  {
    var b := c.Bit(v.base[i]);
    if i < v.frontier.At(b) then NewLink(c, v.base, NextOf(c, v.base, i + 1, b), b)
    else OldLink(c, v.base, i + 1)
  }

  /** The link that leads to the part of chain `b` that was there when the split was published. */
  function EntryLink(c: Split, v: View, b: bool): Link
  {
    NewLink(c, v.base, NextOf(c, v.base, 0, b), b)
  }

  function PreLink(c: Split, v: View, b: bool, j: nat): Link
    requires j <= |v.pre.At(b)|
  {
    if j < |v.pre.At(b)| then Make(v.pre.At(b)[j], c.NewShift()) else EntryLink(c, v, b)
  }

  /** A head carries the locked mark when its rewrite lock is held, and always at an end. */
  function Locked(l: Link, held: bool): Link { l.(locked := l.end || held) }

  // ---------------------------------------------------------------------------------------
  // Invariant of a view, and memory that agrees with it
  // ---------------------------------------------------------------------------------------

  ghost predicate FrontierOk(c: Split, v: View, b: bool)
  {
    && v.frontier.At(b) <= |v.base|
    && (v.frontier.At(b) < |v.base| ==> c.Bit(v.base[v.frontier.At(b)]) == b)
  }

  /** Entries from the earlier frontier up to the later one all go to the earlier chain. */
  ghost predicate Between(c: Split, v: View, b: bool)
  {
    forall i | v.frontier.At(b) <= i < v.frontier.At(!b) && i < |v.base| :: c.Bit(v.base[i]) == b
  }

  ghost predicate ViewOk(c: Split, v: View) {
    && c.Ok()
    && (forall i | 0 <= i < |v.base| :: c.Belongs(v.base[i]))
    && NoDup(v.base)
    && (!v.published ==> v.pre == Pair([], []) && (v.held.zero ==> v.base != []))
    && (v.published ==> forall b: bool :: ChainOk(c, v, b))
  }

  ghost predicate ChainOk(c: Split, v: View, b: bool) {
    && FrontierOk(c, v, b) && Between(c, v, b) && PreOk(c, v, b)
    && (v.held.At(b) ==> NextOf(c, v.base, 0, b) < |v.base|)
  }

  ghost predicate PreOk(c: Split, v: View, b: bool) {
    && (forall j | 0 <= j < |v.pre.At(b)| :: c.Belongs(v.pre.At(b)[j]) && c.Bit(v.pre.At(b)[j]) == b)
    && NoDup(v.pre.At(b)) && Apart(v.pre.At(b), v.base)
  }

  ghost predicate HeadIs(mem: seq<Slot>, home: nat, l: Link) { home < |mem| && mem[home].head == l }

  ghost predicate ChainIs(mem: seq<Slot>, e: nat, l: Link) { e < |mem| && mem[e].chain == l }

  /** Memory of the slots that matter while the old head still carries the old shift. */
  ghost predicate RenderedOld(c: Split, v: View, mem: seq<Slot>) {
    && HeadIs(mem, c.oldHome, Locked(OldLink(c, v.base, 0), v.held.zero))
    && (forall i {:trigger OldLink(c, v.base, i)} | 0 < i <= |v.base| ::
        ChainIs(mem, v.base[i - 1], OldLink(c, v.base, i)))
  }

  ghost predicate RenderedPre(c: Split, v: View, mem: seq<Slot>, b: bool) {
    && HeadIs(mem, c.Home(b), Locked(PreLink(c, v, b, 0), v.held.At(b)))
    && (forall j {:trigger PreLink(c, v, b, j)} | 0 < j <= |v.pre.At(b)| ::
        ChainIs(mem, v.pre.At(b)[j - 1], PreLink(c, v, b, j)))
  }

  ghost predicate RenderedBase(c: Split, v: View, mem: seq<Slot>) {
    forall i {:trigger LinkAt(c, v, i)} | 0 <= i < |v.base| :: ChainIs(mem, v.base[i], LinkAt(c, v, i))
  }

  ghost predicate Rendered(c: Split, v: View, mem: seq<Slot>) {
    && |mem| == |c.keys|
    && (forall e | 0 <= e < |mem| :: mem[e].key == c.keys[e])
    && if v.published then RenderedPre(c, v, mem, false) && RenderedPre(c, v, mem, true) && RenderedBase(c, v, mem)
       else RenderedOld(c, v, mem)
  }

  // ---------------------------------------------------------------------------------------
  // Steps
  // ---------------------------------------------------------------------------------------

  /** Another thread pushes `e` at the head of the chain that its hash selects. */
  ghost function Pushed(c: Split, v: View, e: nat): View
  {
    if v.published then v.(pre := Set(v.pre, c.Bit(e), [e] + v.pre.At(c.Bit(e))))
    else v.(base := [e] + v.base)
  }

  /** Both heads now carry the new shift. */
  ghost function Publish(c: Split, v: View): View
  {
    var f := Pair(NextOf(c, v.base, 0, false), NextOf(c, v.base, 0, true));
    View(true, v.base, f, Pair([], []), Pair(f.zero < |v.base|, f.one < |v.base|))
  }

  /** One chain link is rewritten: the frontier of chain `b` moves to that chain's next entry. */
  ghost function Advance(c: Split, v: View, b: bool): View
    requires v.frontier.At(b) < |v.base|
  {
    v.(frontier := Set(v.frontier, b, NextOf(c, v.base, v.frontier.At(b) + 1, b)))
  }

  /** Every change of the shared structure while a split is under way. */
  ghost predicate Step(c: Split, v: View, w: View) {
    || w == v
    || (exists e :: c.Belongs(e) && e !in Present(v) && w == Pushed(c, v, e))
    || (!v.published && w == Publish(c, v))
    || (v.published && exists b: bool :: v.frontier.At(b) < v.frontier.At(!b) <= |v.base| && w == Advance(c, v, b))
    || (exists h :: w == v.(held := h) && ViewOk(c, w))
  }

  lemma Stutter(c: Split, v: View)
    ensures Step(c, v, v)
  {
  }

  lemma PushKeepsOk(c: Split, v: View, e: nat)
    requires ViewOk(c, v) && c.Belongs(e) && e !in Present(v)
    ensures ViewOk(c, Pushed(c, v, e)) && Step(c, v, Pushed(c, v, e))
    ensures Present(Pushed(c, v, e)) == Present(v) + {e}
  {
    var w := Pushed(c, v, e);
    if v.published {
      var b := c.Bit(e);
      assert w.pre.At(b) == [e] + v.pre.At(b) && w.pre.At(!b) == v.pre.At(!b);
      assert ChainOk(c, v, b) && ChainOk(c, v, !b) && PreOk(c, w, b) && PreOk(c, w, !b);
      forall b': bool ensures ChainOk(c, w, b') {
        assert ChainOk(c, v, b');
        assert b' == b || b' == !b;
      }
    }
  }

  lemma StepKeepsEntries(c: Split, v: View, w: View)
    requires ViewOk(c, v) && Step(c, v, w)
    ensures Present(v) <= Present(w)
  {
    if e :| c.Belongs(e) && e !in Present(v) && w == Pushed(c, v, e) {
      PushKeepsOk(c, v, e);
    }
  }

  lemma PublishKeepsOk(c: Split, v: View)
    requires ViewOk(c, v) && !v.published
    ensures ViewOk(c, Publish(c, v)) && Step(c, v, Publish(c, v)) && Present(Publish(c, v)) == Present(v)
  {
    var w := Publish(c, v);
    forall b: bool ensures ChainOk(c, w, b) {
      assert w.frontier.At(!b) == NextOf(c, v.base, 0, !b);
      assert w.pre.At(b) == [];
    }
  }

  lemma FrontierInRange(c: Split, v: View, b: bool)
    requires ViewOk(c, v) && v.published
    ensures v.frontier.At(b) <= |v.base|
    ensures v.frontier.At(b) < |v.base| ==> c.Bit(v.base[v.frontier.At(b)]) == b
    ensures forall i | v.frontier.At(b) <= i < v.frontier.At(!b) && i < |v.base| :: c.Bit(v.base[i]) == b
  {
    assert ChainOk(c, v, b);
  }

  /** Advancing the earlier frontier keeps the entries between the two frontiers uniform, whether
      or not it passes the other one. */
  lemma AdvanceKeepsOk(c: Split, v: View, b: bool)
    requires ViewOk(c, v) && v.published && v.frontier.At(b) < v.frontier.At(!b) <= |v.base|
    ensures ViewOk(c, Advance(c, v, b)) && Step(c, v, Advance(c, v, b))
  {
    var w := Advance(c, v, b);
    assert ChainOk(c, v, b) && ChainOk(c, v, !b);
    assert w.frontier.At(!b) == v.frontier.At(!b);
    assert Between(c, w, b);
    assert Between(c, w, !b);
    forall b': bool ensures ChainOk(c, w, b') {
      assert ChainOk(c, v, b');
      assert w.pre.At(b') == v.pre.At(b');
      assert b' == b || b' == !b;
    }
  }

  // ---------------------------------------------------------------------------------------
  // Stores that realise the steps
  // ---------------------------------------------------------------------------------------

  /** The chain link of a slot that is on no chain can be written without any visible effect. */
  lemma PrivateStore(c: Split, v: View, mem: seq<Slot>, e: nat, l: Link)
    requires Rendered(c, v, mem) && e < |mem| && e !in Present(v)
    ensures Rendered(c, v, WithChain(mem, e, l))
  {
    var m := WithChain(mem, e, l);
    if v.published {
      forall b: bool ensures RenderedPre(c, v, m, b) {
        assert RenderedPre(c, v, mem, b);
        forall j | 0 < j <= |v.pre.At(b)| ensures ChainIs(m, v.pre.At(b)[j - 1], PreLink(c, v, b, j)) {
          assert v.pre.At(b)[j - 1] in v.pre.At(b);
        }
      }
      forall i | 0 <= i < |v.base| ensures ChainIs(m, v.base[i], LinkAt(c, v, i)) {
        assert v.base[i] in v.base;
      }
    } else {
      forall i | 0 < i <= |v.base| ensures ChainIs(m, v.base[i - 1], OldLink(c, v.base, i)) {
        assert v.base[i - 1] in v.base;
      }
    }
  }

  /** The head that an inserting thread reads, and the link it must store, for entry `e`. */
  function HeadLink(c: Split, v: View, e: nat): Link {
    if v.published then PreLink(c, v, c.Bit(e), 0) else OldLink(c, v.base, 0)
  }

  function PushHome(c: Split, v: View, e: nat): nat { if v.published then c.Home(c.Bit(e)) else c.oldHome }

  function PushShift(c: Split, v: View): nat { if v.published then c.NewShift() else c.oldShift }

  function PushHeld(c: Split, v: View, e: nat): bool { if v.published then v.held.At(c.Bit(e)) else v.held.zero }

  /** Following the shift found on the old head leads an inserting thread to the right head. */
  lemma PushTarget(c: Split, v: View, mem: seq<Slot>, e: nat)
    requires ViewOk(c, v) && Rendered(c, v, mem) && c.Belongs(e)
    ensures e < |mem| && c.oldHome < |mem| && c.growHome < |mem|
    ensures mem[c.oldHome].head.shift == PushShift(c, v)
    ensures PushHome(c, v, e) == if v.published then mem[e].key.lo % Pow2(c.oldShift + 1) else c.oldHome
    ensures PushHome(c, v, e) < |mem|
    ensures mem[PushHome(c, v, e)].head == Locked(HeadLink(c, v, e), PushHeld(c, v, e))
    ensures mem[PushHome(c, v, e)].head.LockedNotEnd() == PushHeld(c, v, e)
  {
    c.BitHome(e);
    if v.published {
      assert ChainOk(c, v, false) && ChainOk(c, v, true);
    }
  }

  /** Once its chain link is stored, the head exchange alone makes `e` part of the chain. */
  lemma PushRenders(c: Split, v: View, mem: seq<Slot>, e: nat)
    requires ViewOk(c, v) && Rendered(c, v, mem) && c.Belongs(e) && e !in Present(v)
    requires mem[e].chain == HeadLink(c, v, e)
    ensures PushHome(c, v, e) < |mem|
    ensures Rendered(c, Pushed(c, v, e), WithHead(mem, PushHome(c, v, e),
        Locked(Make(e, PushShift(c, v)), PushHeld(c, v, e))))
  {
    var w := Pushed(c, v, e);
    var home := PushHome(c, v, e);
    var m := WithHead(mem, home, Locked(Make(e, PushShift(c, v)), PushHeld(c, v, e)));
    if v.published {
      var b := c.Bit(e);
      assert ChainOk(c, v, b);
      PushPre(c, v, mem, e, m, b);
      PushPre(c, v, mem, e, m, !b);
      assert RenderedPre(c, w, m, false) && RenderedPre(c, w, m, true);
      forall i | 0 <= i < |w.base| ensures ChainIs(m, w.base[i], LinkAt(c, w, i)) {
        assert ChainIs(mem, v.base[i], LinkAt(c, v, i));
      }
    } else {
      forall i | 0 < i <= |w.base| ensures ChainIs(m, w.base[i - 1], OldLink(c, w.base, i)) {
        if i > 1 {
          assert ChainIs(mem, v.base[i - 2], OldLink(c, v.base, i - 1));
        }
      }
    }
  }

  lemma PushPre(c: Split, v: View, mem: seq<Slot>, e: nat, m: seq<Slot>, b: bool)
    requires ViewOk(c, v) && Rendered(c, v, mem) && v.published && c.Belongs(e) && e !in Present(v)
    requires mem[e].chain == HeadLink(c, v, e)
    requires m == WithHead(mem, c.Home(c.Bit(e)), Locked(Make(e, c.NewShift()), v.held.At(c.Bit(e))))
    ensures RenderedPre(c, Pushed(c, v, e), m, b)
  {
    var w := Pushed(c, v, e);
    assert RenderedPre(c, v, mem, b);
    forall j | 0 < j <= |w.pre.At(b)| ensures ChainIs(m, w.pre.At(b)[j - 1], PreLink(c, w, b, j)) {
      if b != c.Bit(e) {
        assert ChainIs(mem, v.pre.At(b)[j - 1], PreLink(c, v, b, j));
      } else if j > 1 {
        assert ChainIs(mem, v.pre.At(b)[j - 2], PreLink(c, v, b, j - 1));
      }
    }
  }

  /** With the one chain's head in place, exchanging the old head publishes the split. */
  lemma PublishRenders(c: Split, v: View, mem: seq<Slot>)
    requires ViewOk(c, v) && Rendered(c, v, mem) && !v.published
    requires mem[c.growHome].head == Locked(EntryLink(c, v, true), true)
    ensures Rendered(c, Publish(c, v), WithHead(mem, c.oldHome, Locked(EntryLink(c, v, false), true)))
  {
    var w := Publish(c, v);
    var m := WithHead(mem, c.oldHome, Locked(EntryLink(c, v, false), true));
    assert RenderedPre(c, w, m, false) && RenderedPre(c, w, m, true);
    forall i | 0 <= i < |w.base| ensures ChainIs(m, w.base[i], LinkAt(c, w, i)) {
      assert ChainIs(mem, v.base[i], OldLink(c, v.base, i + 1));
      var b := c.Bit(v.base[i]);
      assert w.frontier.At(b) == NextOf(c, v.base, 0, b) <= i;
    }
  }

  /** Only the frontier entry's own link changes when a frontier advances. */
  lemma AdvanceLinks(c: Split, v: View, b: bool, i: nat)
    requires ViewOk(c, v) && v.published && v.frontier.At(b) < |v.base| && i < |v.base|
    ensures LinkAt(c, Advance(c, v, b), i) ==
            if i == v.frontier.At(b) then NewLink(c, v.base, NextOf(c, v.base, i + 1, b), b) else LinkAt(c, v, i)
  {
    assert ChainOk(c, v, b);
  }

  ghost function AdvancedMem(c: Split, v: View, mem: seq<Slot>, b: bool): seq<Slot>
    requires v.frontier.At(b) < |v.base| && v.base[v.frontier.At(b)] < |mem|
  {
    var f := v.frontier.At(b);
    WithChain(mem, v.base[f], NewLink(c, v.base, NextOf(c, v.base, f + 1, b), b))
  }

  lemma AdvancePre(c: Split, v: View, mem: seq<Slot>, b: bool, b': bool)
    requires ViewOk(c, v) && Rendered(c, v, mem) && v.published && v.frontier.At(b) < |v.base|
    ensures v.base[v.frontier.At(b)] < |mem|
    ensures RenderedPre(c, Advance(c, v, b), AdvancedMem(c, v, mem, b), b')
  {
    var e := v.base[v.frontier.At(b)];
    assert RenderedPre(c, v, mem, b') && ChainOk(c, v, b') && c.Belongs(e);
    var w, m := Advance(c, v, b), AdvancedMem(c, v, mem, b);
    forall j | 0 < j <= |w.pre.At(b')| ensures ChainIs(m, w.pre.At(b')[j - 1], PreLink(c, w, b', j)) {
      assert ChainIs(mem, v.pre.At(b')[j - 1], PreLink(c, v, b', j));
      assert v.pre.At(b')[j - 1] in v.pre.At(b') && e in v.base;
    }
  }

  lemma AdvanceAt(c: Split, v: View, mem: seq<Slot>, b: bool, i: nat)
    requires ViewOk(c, v) && v.published && v.frontier.At(b) < |v.base| && v.base[v.frontier.At(b)] < |mem|
    requires i < |v.base| && ChainIs(mem, v.base[i], LinkAt(c, v, i))
    ensures ChainIs(AdvancedMem(c, v, mem, b), v.base[i], LinkAt(c, Advance(c, v, b), i))
  {
    AdvanceLinks(c, v, b, i);
    assert i != v.frontier.At(b) ==> v.base[i] != v.base[v.frontier.At(b)];
  }

  lemma AdvanceBase(c: Split, v: View, mem: seq<Slot>, b: bool)
    requires ViewOk(c, v) && RenderedBase(c, v, mem) && v.published
    requires v.frontier.At(b) < |v.base| && v.base[v.frontier.At(b)] < |mem|
    ensures RenderedBase(c, Advance(c, v, b), AdvancedMem(c, v, mem, b))
  {
    forall i | 0 <= i < |v.base| ensures ChainIs(AdvancedMem(c, v, mem, b), v.base[i], LinkAt(c, Advance(c, v, b), i)) {
      AdvanceAt(c, v, mem, b, i);
    }
  }

  /** Storing one new-shift link on the frontier entry advances that frontier. */
  lemma AdvanceRenders(c: Split, v: View, mem: seq<Slot>, b: bool)
    requires ViewOk(c, v) && Rendered(c, v, mem) && v.published && v.frontier.At(b) < |v.base|
    ensures v.base[v.frontier.At(b)] < |mem|
    ensures Rendered(c, Advance(c, v, b), AdvancedMem(c, v, mem, b))
  {
    AdvancePre(c, v, mem, b, false);
    AdvancePre(c, v, mem, b, true);
    AdvanceBase(c, v, mem, b);
  }
}
