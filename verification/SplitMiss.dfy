/** When a lookup can miss a visible entry during a split. An entry under construction cannot be
    referenced, so a lookup steps over it without knowing its home. If it got there from an entry of the
    other chain whose link has just been rewritten, it may have jumped over its target. */
module SplitMiss {
  import opened Arith
  import opened Slots
  import opened SplitModel
  import opened ChainSplit
  import opened SplitLookup

  /** The first entry of the other chain behind the target is one that may be under construction, and
      entries of both chains come before the target, the target's own first. */
  ghost predicate TrappedBy(c: Split, chain: seq<nat>, x: nat, hidden: set<nat>) {
    exists f, e, j | 0 <= f < e < j < |chain| :: Trapped(c, chain, x, f, e, j) && chain[Behind(c, chain, j)] in hidden
  }

  /** A history of the split of `chain`, and a lookup in it that ends with "not found" although entry `x`,
      which has the key, is on the chain and visible throughout. Only entries in `hidden` are ever under
      construction, and nothing is pushed before the split is published. */
  ghost predicate Misses(c: Split, chain: seq<nat>, mem: seq<Slot>, x: nat, hidden: set<nat>, trace: seq<Moment>,
      states: seq<seq<State>>, looks: seq<Look>, times: seq<nat>, marks: seq<nat>) {
    && x < |c.keys| && TraceOk(c, trace) && trace != [] && trace[0] == Moment(Start(chain), mem)
    && (forall t | 0 <= t < |trace| :: KeepsBase(trace[t].view, chain))
    && Runs(c, trace, states, c.keys[x], looks, times, marks)
    && StaysVisible(states, x, times[0], marks[|marks| - 1])
    && (forall t | 0 <= t < |states| :: SharedBut(states[t], hidden))
    && Becomes(trace[times[|times| - 1]].mem, states[marks[|marks| - 1]], c.keys[x], looks[|looks| - 1], NotFound)
  }

  ghost predicate KeepsBase(v: View, chain: seq<nat>) { v.published ==> v.base == chain }

  ghost predicate SharedBut(st: seq<State>, hidden: set<nat>) {
    forall e | 0 <= e < |st| && e !in hidden :: Shared(st[e])
  }

  ghost predicate CanMiss(c: Split, chain: seq<nat>, mem: seq<Slot>, x: nat, hidden: set<nat>) {
    exists trace, states, looks, times, marks ::
      Misses(c, chain, mem, x, hidden, trace, states, looks, times, marks)
  }

  // ---------------------------------------------------------------------------------------
  // Otherwise no lookup misses

  lemma ExposedTraps(c: Split, chain: seq<nat>, x: nat, hidden: set<nat>, st: seq<State>)
    requires SharedBut(st, hidden)
    ensures Exposed(c, chain, x, st) ==> TrappedBy(c, chain, x, hidden)
  {
    hide Behind;
    if Exposed(c, chain, x, st) {
      var f, e, j :| 0 <= f < e < j < |chain| && Trapped(c, chain, x, f, e, j)
        && chain[Behind(c, chain, j)] < |st| && !Shared(st[chain[Behind(c, chain, j)]]);
    }
  }

  lemma MissNeedsTrap(c: Split, chain: seq<nat>, mem: seq<Slot>, x: nat, hidden: set<nat>, trace: seq<Moment>,
      states: seq<seq<State>>, looks: seq<Look>, times: seq<nat>, marks: seq<nat>)
    requires ViewOk(c, Start(chain)) && x in chain
    requires Misses(c, chain, mem, x, hidden, trace, states, looks, times, marks)
    ensures TrappedBy(c, chain, x, hidden)
  {
    hide TraceOk, Runs, StaysVisible, Becomes, TrappedBy, Exposed, Follow;
    RunTimes(c, trace, states, c.keys[x], looks, times, marks);
    EntriesStay(c, trace, 0, times[0]);
    assert x in Present(trace[0].view);
    assert c.Belongs(x) by {
      var i :| 0 <= i < |chain| && chain[i] == x;
      assert c.Belongs(Start(chain).base[i]);
    }
    if !TrappedBy(c, chain, x, hidden) {
      forall k | 0 <= k < |times| && k < |marks| && times[k] < |trace| && marks[k] < |states|
        ensures SafeAt(c, trace[times[k]].view, x, states[marks[k]])
      {
        assert KeepsBase(trace[times[k]].view, chain) && SharedBut(states[marks[k]], hidden);
        ExposedTraps(c, chain, x, hidden, states[marks[k]]);
      }
      LookupNeverMisses(c, trace, states, x, looks, times, marks);
      NotBoth(trace, states, c.keys[x], looks, times, marks);
    }
  }

  lemma RunTimes(c: Split, trace: seq<Moment>, states: seq<seq<State>>, key: HashedKey, looks: seq<Look>,
      times: seq<nat>, marks: seq<nat>)
    requires Runs(c, trace, states, key, looks, times, marks)
    ensures 0 < |looks| == |times| == |marks| && |states| == |trace|
    ensures forall t | 0 <= t < |states| :: |states[t]| == |c.keys|
    ensures forall k | 0 <= k < |times| :: times[k] <= marks[k] < |trace|
  {
  }

  lemma NotBoth(trace: seq<Moment>, states: seq<seq<State>>, key: HashedKey, looks: seq<Look>, times: seq<nat>,
      marks: seq<nat>)
    requires 0 < |looks| == |times| == |marks|
    requires times[|times| - 1] < |trace| && marks[|marks| - 1] < |states|
    requires var mem, st, l := trace[times[|times| - 1]].mem, states[marks[|marks| - 1]], looks[|looks| - 1];
      Becomes(mem, st, key, l, NotFound)
    ensures var mem, st, l := trace[times[|times| - 1]].mem, states[marks[|marks| - 1]], looks[|looks| - 1];
      && Placed(mem, l) && |st| == |mem| && (Load(mem, l).end || Load(mem, l).next < |mem|)
      && Follow(mem, st, key, l, Load(mem, l)).NotFound?
  {
  }

  // ---------------------------------------------------------------------------------------
  // A history up to any point of the migration

  ghost predicate Migrating(c: Split, chain: seq<nat>, mem: seq<Slot>, trace: seq<Moment>, v: View, m: seq<Slot>) {
    && Inv(c, v, m, [], trace) && trace != [] && trace[0] == Moment(Start(chain), mem)
    && (forall t | 0 <= t < |trace| :: KeepsBase(trace[t].view, chain))
    && v.published && v.base == chain && v.pre == Pair([], [])
  }

  lemma KeepsMore(chain: seq<nat>, trace: seq<Moment>, m: Moment)
    requires forall t | 0 <= t < |trace| :: KeepsBase(trace[t].view, chain)
    requires KeepsBase(m.view, chain)
    ensures forall t | 0 <= t < |trace + [m]| :: KeepsBase((trace + [m])[t].view, chain)
  {
  }

  ghost predicate Unpublished(c: Split, chain: seq<nat>, mem: seq<Slot>, trace: seq<Moment>, v: View, m: seq<Slot>) {
    && Inv(c, v, m, [], trace) && trace != [] && trace[0] == Moment(Start(chain), mem)
    && (forall t | 0 <= t < |trace| :: KeepsBase(trace[t].view, chain))
    && !v.published && v.base == chain
  }

  /** The rewrite lock of the chain is taken. */
  lemma LockedFirst(c: Split, chain: seq<nat>, mem: seq<Slot>) returns (trace: seq<Moment>, v: View, m: seq<Slot>)
    requires ViewOk(c, Start(chain)) && Rendered(c, Start(chain), mem) && chain != []
    ensures Unpublished(c, chain, mem, trace, v, m)
  {
    hide Inv, ViewOk, Rendered;
    StartsOk(c, chain, [], mem);
    v, m, trace := Start(chain), mem, [Moment(Start(chain), mem)];
    Relocks(c, v, m, [], trace, false, true);
    v, m := v.(held := Set(v.held, false, true)), WithHead(m, c.Home(false), Locked(m[c.Home(false)].head, true));
    KeepsMore(chain, trace, Moment(v, m));
    trace := trace + [Moment(v, m)];
  }

  /** The grow home's head is stored. */
  lemma HeadStored(c: Split, chain: seq<nat>, mem: seq<Slot>) returns (trace: seq<Moment>, v: View, m: seq<Slot>)
    requires ViewOk(c, Start(chain)) && Rendered(c, Start(chain), mem) && chain != []
    ensures Unpublished(c, chain, mem, trace, v, m)
    ensures c.growHome < |m| && m[c.growHome].head == Locked(EntryLink(c, v, true), true)
  {
    hide Inv, ViewOk, Rendered, NextOf;
    trace, v, m := LockedFirst(c, chain, mem);
    var l := Locked(EntryLink(c, v, true), true);
    Prepares(c, v, m, [], trace, l);
    m := WithHead(m, c.growHome, l);
    KeepsMore(chain, trace, Moment(v, m));
    trace := trace + [Moment(v, m)];
  }

  /** The old head is exchanged. */
  lemma Published(c: Split, chain: seq<nat>, mem: seq<Slot>) returns (trace: seq<Moment>, v: View, m: seq<Slot>)
    requires ViewOk(c, Start(chain)) && Rendered(c, Start(chain), mem) && chain != []
    ensures Migrating(c, chain, mem, trace, v, m)
    ensures v.frontier == Pair(NextOf(c, chain, 0, false), NextOf(c, chain, 0, true))
  {
    hide Inv, ViewOk, Rendered, NextOf;
    trace, v, m := HeadStored(c, chain, mem);
    Publishes(c, v, m, [], trace);
    m := WithHead(m, c.oldHome, Locked(EntryLink(c, v, false), true));
    v := Publish(c, v);
    KeepsMore(chain, trace, Moment(v, m));
    trace := trace + [Moment(v, m)];
  }

  lemma Frontiers(c: Split, chain: seq<nat>, mem: seq<Slot>, trace: seq<Moment>, v: View, m: seq<Slot>, b: bool)
    requires Migrating(c, chain, mem, trace, v, m)
    ensures v.frontier.At(b) <= |chain| && (v.frontier.At(b) < |chain| ==> c.Bit(chain[v.frontier.At(b)]) == b)
    ensures forall i | v.frontier.At(b) <= i < v.frontier.At(!b) && i < |chain| :: c.Bit(chain[i]) == b
  {
    FrontierInRange(c, v, b);
  }

  /** The frontier of a chain passes every entry of that chain. */
  lemma {:induction false} AdvanceTo(c: Split, chain: seq<nat>, mem: seq<Slot>, trace: seq<Moment>, v: View,
      m: seq<Slot>, b: bool, k: nat) returns (trace': seq<Moment>, v': View, m': seq<Slot>)
    requires Migrating(c, chain, mem, trace, v, m)
    requires v.frontier.At(b) <= k < |chain| && c.Bit(chain[k]) == b
    ensures Migrating(c, chain, mem, trace', v', m') && trace <= trace' && v'.frontier.At(b) == k
    decreases 2 * |chain| - v.frontier.zero - v.frontier.one
  {
    hide Inv, NextOf;
    Frontiers(c, chain, mem, trace, v, m, b);
    Frontiers(c, chain, mem, trace, v, m, !b);
    if v.frontier.At(b) == k {
      return trace, v, m;
    }
    var d := if v.frontier.At(b) < v.frontier.At(!b) then b else !b;
    Advances(c, v, m, [], trace, d);
    var w, n := Advance(c, v, d), AdvancedMem(c, v, m, d);
    PassesNone(c, chain, v.frontier.At(d) + 1, d, k, b);
    KeepsMore(chain, trace, Moment(w, n));
    trace', v', m' := AdvanceTo(c, chain, mem, trace + [Moment(w, n)], w, n, b, k);
  }

  lemma PassesNone(c: Split, chain: seq<nat>, i: nat, d: bool, k: nat, b: bool)
    requires i <= |chain| && k < |chain| && c.Bit(chain[k]) == b
    ensures i <= NextOf(c, chain, i, d) <= |chain|
    ensures d == b && i <= k ==> NextOf(c, chain, i, d) <= k
  {
  }

  // ---------------------------------------------------------------------------------------
  // A lookup that walks the shared tail

  /** The loop of a lookup by the new shift, at position `i` of the chain. */
  ghost predicate Stands(c: Split, chain: seq<nat>, b: bool, i: nat, l: Look) {
    i < |chain| && l.shift == c.NewShift() && l.home == c.Home(b) && l.at == At(chain[i])
  }

  lemma AddLook(c: Split, trace: seq<Moment>, states: seq<seq<State>>, key: HashedKey, looks: seq<Look>,
      times: seq<nat>, marks: seq<nat>, l: Look, t: nat)
    requires Runs(c, trace, states, key, looks, times, marks) && marks[|marks| - 1] <= t < |trace|
    requires Continues(trace[times[|times| - 1]].mem, states[marks[|marks| - 1]], key, looks[|looks| - 1], l)
    ensures Runs(c, trace, states, key, looks + [l], times + [t], marks + [t])
  {
    hide Begins, Continues;
    var looks', times', marks' := looks + [l], times + [t], marks + [t];
    forall k | 0 < k < |looks'|
      ensures Continues(trace[times'[k - 1]].mem, states[marks'[k - 1]], key, looks'[k - 1], looks'[k])
    {
      assert looks'[k - 1] == looks[k - 1] && times'[k - 1] == times[k - 1] && marks'[k - 1] == marks[k - 1];
    }
  }

  /** A lookup may load its next link any time later. */
  lemma WaitUntil(c: Split, trace: seq<Moment>, states: seq<seq<State>>, key: HashedKey, looks: seq<Look>,
      times: seq<nat>, marks: seq<nat>, t: nat)
    requires Runs(c, trace, states, key, looks, times, marks) && |looks| > 1
    requires times[|times| - 1] == marks[|marks| - 1] <= t < |trace|
    ensures Runs(c, trace, states, key, looks, times[|times| - 1 := t], marks[|marks| - 1 := t])
  {
    hide Begins, Continues;
  }

  /** An old link on the shared tail leads to the next entry of either chain. */
  lemma StepOn(c: Split, chain: seq<nat>, v: View, m: seq<Slot>, st: seq<State>, key: HashedKey, b: bool, i: nat,
      l: Look) returns (l': Look)
    requires ViewOk(c, v) && Rendered(c, v, m) && v.published && v.base == chain && |st| == |c.keys|
    requires Stands(c, chain, b, i, l) && i + 1 < |chain| && LinkAt(c, v, i) == OldLink(c, chain, i + 1)
    requires chain[i + 1] < |st| && st[chain[i + 1]].Invisible?
    ensures Stands(c, chain, b, i + 1, l') && Continues(m, st, key, l, l')
  {
    hide NextOf;
    assert c.Belongs(chain[i]) && c.Belongs(chain[i + 1]);
    Homes(c, chain[i + 1]);
    assert ChainIs(m, chain[i], LinkAt(c, v, i));
    var out := Follow(m, st, key, l, Load(m, l));
    l' := out.look;
  }

  /** The links from position `i` up to `n` are still those of before the split. */
  ghost predicate OldTail(c: Split, v: View, chain: seq<nat>, i: nat, n: nat) {
    n <= |chain| && v.base == chain && forall p | i <= p < n :: LinkAt(c, v, p) == OldLink(c, chain, p + 1)
  }

  ghost predicate Unseen(chain: seq<nat>, st: seq<State>, i: nat, n: nat) {
    n < |chain| && forall p | i <= p <= n :: chain[p] < |st| && st[chain[p]].Invisible?
  }

  lemma {:induction false} WalkOn(c: Split, chain: seq<nat>, trace: seq<Moment>, states: seq<seq<State>>,
      key: HashedKey, b: bool, t: nat, i: nat, n: nat, looks: seq<Look>, times: seq<nat>, marks: seq<nat>)
    returns (looks': seq<Look>, times': seq<nat>, marks': seq<nat>)
    requires TraceOk(c, trace) && Runs(c, trace, states, key, looks, times, marks) && t < |trace| && i <= n
    requires times[|times| - 1] == marks[|marks| - 1] == t && Stands(c, chain, b, i, looks[|looks| - 1])
    requires trace[t].view.published && OldTail(c, trace[t].view, chain, i, n) && Unseen(chain, states[t], i + 1, n)
    ensures Runs(c, trace, states, key, looks', times', marks') && |looks'| >= |looks| && times'[0] == times[0]
    ensures times'[|times'| - 1] == marks'[|marks'| - 1] == t && Stands(c, chain, b, n, looks'[|looks'| - 1])
    decreases n - i
  {
    hide Runs, TraceOk, Continues, ViewOk, Rendered, LinkAt, OldLink;
    RunTimes(c, trace, states, key, looks, times, marks);
    if i == n {
      return looks, times, marks;
    }
    TraceAt(c, trace, t);
    var l := StepOn(c, chain, trace[t].view, trace[t].mem, states[t], key, b, i, looks[|looks| - 1]);
    AddLook(c, trace, states, key, looks, times, marks, l, t);
    looks', times', marks' :=
      WalkOn(c, chain, trace, states, key, b, t, i + 1, n, looks + [l], times + [t], marks + [t]);
  }

  lemma TraceAt(c: Split, trace: seq<Moment>, t: nat)
    requires TraceOk(c, trace) && t < |trace|
    ensures ViewOk(c, trace[t].view) && Rendered(c, trace[t].view, trace[t].mem)
  {
  }

  // ---------------------------------------------------------------------------------------
  // The lookup that misses

  /** The target is visible, one entry is under construction, and no other entry can be a match. */
  ghost function OneHidden(n: nat, x: nat, y: nat): (st: seq<State>)
    ensures |st| == n
    ensures forall e | 0 <= e < n ::
      st[e] == if e == x then Visible else if e == y then Construction else Invisible
  {
    seq(n, e requires 0 <= e < n => if e == x then Visible else if e == y then Construction else Invisible)
  }

  lemma LastOther(c: Split, chain: seq<nat>, b: bool, e: nat, j: nat) returns (e': nat)
    requires e < j < |chain| && c.Bit(chain[e]) != b
    ensures e <= e' < j && c.Bit(chain[e']) != b && forall p | e' < p < j :: c.Bit(chain[p]) == b
    decreases j
  {
    if c.Bit(chain[j - 1]) != b {
      e' := j - 1;
    } else {
      e' := LastOther(c, chain, b, e, j - 1);
    }
  }

  /** Right after publication nothing behind the first entry of a chain has been migrated. */
  lemma FreshTail(c: Split, chain: seq<nat>, v: View, b: bool, n: nat)
    requires v.base == chain && v.published && n <= |chain|
    requires v.frontier == Pair(NextOf(c, chain, 0, false), NextOf(c, chain, 0, true))
    ensures OldTail(c, v, chain, NextOf(c, chain, 0, b), n)
  {
    forall p | NextOf(c, chain, 0, b) <= p < n ensures LinkAt(c, v, p) == OldLink(c, chain, p + 1) {
      var d := c.Bit(chain[p]);
      assert v.frontier.At(d) == NextOf(c, chain, 0, d) <= p;
    }
  }

  /** Nothing from a frontier entry on has been migrated, but for a stretch of its own chain. */
  lemma StaleTail(c: Split, chain: seq<nat>, mem: seq<Slot>, trace: seq<Moment>, v: View, m: seq<Slot>, d: bool)
    requires Migrating(c, chain, mem, trace, v, m) && v.frontier.At(d) < |chain|
    ensures OldTail(c, v, chain, v.frontier.At(d), |chain|)
  {
    hide Inv, NextOf;
    Frontiers(c, chain, mem, trace, v, m, d);
    Frontiers(c, chain, mem, trace, v, m, !d);
    forall p | v.frontier.At(d) <= p < |chain| ensures LinkAt(c, v, p) == OldLink(c, chain, p + 1) {
      if c.Bit(chain[p]) != d {
        assert v.frontier.At(!d) <= p;
      }
    }
  }

  /** The lookup reads the head, and takes a reference to the first entry of its chain. */
  lemma FirstLook(c: Split, chain: seq<nat>, mem: seq<Slot>, trace: seq<Moment>, v: View, m: seq<Slot>,
      states: seq<seq<State>>, whole: seq<Moment>, x: nat)
    returns (looks: seq<Look>, times: seq<nat>, marks: seq<nat>)
    requires Migrating(c, chain, mem, trace, v, m) && trace <= whole && StatesOf(c, whole, states)
    requires x < |c.keys| && c.Belongs(x) && NextOf(c, chain, 0, c.Bit(x)) < |chain|
    requires var y := chain[NextOf(c, chain, 0, c.Bit(x))]; y < |c.keys| && states[|trace| - 1][y].Invisible?
    ensures Runs(c, whole, states, c.keys[x], looks, times, marks) && |looks| == 2 && times[0] == |trace| - 1
    ensures times[1] == marks[1] == |trace| - 1 && Stands(c, chain, c.Bit(x), NextOf(c, chain, 0, c.Bit(x)), looks[1])
  {
    hide NextOf;
    var b, t := c.Bit(x), |trace| - 1;
    var f := NextOf(c, chain, 0, b);
    assert whole[t] == trace[t] == Moment(v, m);
    Homes(c, x);
    assert c.Belongs(chain[f]);
    BitAt(c, chain, b);
    Homes(c, chain[f]);
    assert RenderedPre(c, v, m, b);
    var start := Look(c.NewShift(), c.Home(b), Head, Head);
    var out := Follow(m, states[t], c.keys[x], start, Load(m, start));
    looks, times, marks := [start, out.look], [t, t], [t, t];
    assert Continues(m, states[t], c.keys[x], start, out.look);
  }

  lemma BitAt(c: Split, chain: seq<nat>, b: bool)
    requires NextOf(c, chain, 0, b) < |chain|
    ensures c.Bit(chain[NextOf(c, chain, 0, b)]) == b
  {
  }

  /** From the last entry of the other chain before the target, the rewritten link jumps over the target to
      an entry that cannot be referenced, and the lookup follows. */
  lemma JumpOver(c: Split, chain: seq<nat>, mem: seq<Slot>, trace: seq<Moment>, v: View, m: seq<Slot>, st: seq<State>,
      key: HashedKey, b: bool, e: nat, k: nat, l: Look) returns (l': Look)
    requires Migrating(c, chain, mem, trace, v, m) && |st| == |c.keys|
    requires e < k < |chain| && c.Bit(chain[e]) != b && k == NextOf(c, chain, e + 1, !b) == v.frontier.At(!b)
    requires Stands(c, chain, b, e, l) && chain[k] < |st| && !Shared(st[chain[k]])
    ensures Stands(c, chain, b, k, l') && Continues(m, st, key, l, l')
  {
    hide NextOf;
    assert c.Belongs(chain[e]) && c.Belongs(chain[k]);
    assert ChainIs(m, chain[e], LinkAt(c, v, e));
    var out := Follow(m, st, key, l, Load(m, l));
    l' := out.look;
  }

  /** At the end of the shared tail the end marker of the old home counts. */
  lemma EndOfTail(c: Split, chain: seq<nat>, mem: seq<Slot>, trace: seq<Moment>, v: View, m: seq<Slot>, st: seq<State>,
      key: HashedKey, b: bool, l: Look)
    requires Migrating(c, chain, mem, trace, v, m) && |st| == |c.keys| && chain != []
    requires Stands(c, chain, b, |chain| - 1, l) && LinkAt(c, v, |chain| - 1) == OldLink(c, chain, |chain|)
    ensures Becomes(m, st, key, l, NotFound)
  {
    hide NextOf;
    var e := chain[|chain| - 1];
    assert c.Belongs(v.base[|chain| - 1]);
    Homes(c, e);
    assert ChainIs(m, e, LinkAt(c, v, |chain| - 1));
  }

  lemma OthersInvisible(c: Split, chain: seq<nat>, st: seq<State>, j: nat, k: nat, i: nat, n: nat)
    requires NoDup(chain) && j < k < |chain| && n < |chain| && (n < j || k < i)
    requires forall p | 0 <= p < |chain| :: chain[p] < |c.keys|
    requires st == OneHidden(|c.keys|, chain[j], chain[k])
    ensures Unseen(chain, st, i, n)
  {
  }

  lemma SameStates(c: Split, whole: seq<Moment>, st: seq<State>) returns (states: seq<seq<State>>)
    requires |st| == |c.keys|
    ensures StatesOf(c, whole, states) && forall t | 0 <= t < |states| :: states[t] == st
  {
    states := seq(|whole|, _ => st);
  }

  /** The walk up to the last entry of the other chain before the target, right after publication. */
  lemma WalkUp(c: Split, chain: seq<nat>, mem: seq<Slot>, trace: seq<Moment>, v: View, m: seq<Slot>,
      whole: seq<Moment>, states: seq<seq<State>>, x: nat, f: nat, e: nat, j: nat, k: nat)
    returns (looks: seq<Look>, times: seq<nat>, marks: seq<nat>)
    requires Migrating(c, chain, mem, trace, v, m) && TraceOk(c, whole) && trace <= whole
    requires v.frontier == Pair(NextOf(c, chain, 0, false), NextOf(c, chain, 0, true))
    requires f < e < j < k < |chain| && chain[j] == x && c.Bit(chain[f]) == c.Bit(x) && c.Belongs(x) && NoDup(chain)
    requires StatesOf(c, whole, states) && states[|trace| - 1] == OneHidden(|c.keys|, chain[j], chain[k])
    requires forall p | 0 <= p < |chain| :: chain[p] < |c.keys|
    ensures Runs(c, whole, states, c.keys[x], looks, times, marks) && |looks| > 1 && times[0] == |trace| - 1
    ensures times[|times| - 1] == marks[|marks| - 1] == |trace| - 1
    ensures Stands(c, chain, c.Bit(x), e, looks[|looks| - 1])
  {
    hide TraceOk, Runs, NextOf, OldTail, Unseen, OneHidden, Migrating, Stands, NoDup;
    var b, t := c.Bit(x), |trace| - 1;
    LastMoment(c, chain, mem, trace, v, m);
    assert whole[t] == trace[t];
    var g := FirstOf(c, chain, b, f);
    OthersInvisible(c, chain, states[t], j, k, g, e);
    InvisibleAt(chain, states[t], g, e);
    looks, times, marks := FirstLook(c, chain, mem, trace, v, m, states, whole, x);
    RunTimes(c, whole, states, c.keys[x], looks, times, marks);
    FreshTail(c, chain, v, b, e);
    OthersInvisible(c, chain, states[t], j, k, g + 1, e);
    looks, times, marks := WalkOn(c, chain, whole, states, c.keys[x], b, t, g, e, looks, times, marks);
  }

  lemma InvisibleAt(chain: seq<nat>, st: seq<State>, i: nat, n: nat)
    requires Unseen(chain, st, i, n) && i <= n
    ensures i < |chain| && chain[i] < |st| && st[chain[i]].Invisible?
  {
  }

  lemma LastMoment(c: Split, chain: seq<nat>, mem: seq<Slot>, trace: seq<Moment>, v: View, m: seq<Slot>)
    requires Migrating(c, chain, mem, trace, v, m)
    ensures trace != [] && trace[|trace| - 1] == Moment(v, m) && TraceOk(c, trace) && v.published && v.base == chain
  {
  }

  lemma FirstOf(c: Split, chain: seq<nat>, b: bool, f: nat) returns (g: nat)
    requires f < |chain| && c.Bit(chain[f]) == b
    ensures g == NextOf(c, chain, 0, b) <= f
  {
    g := NextOf(c, chain, 0, b);
  }

  /** On to the end of the shared tail, once the rewritten link has led over the target. */
  lemma WalkDown(c: Split, chain: seq<nat>, mem: seq<Slot>, whole: seq<Moment>, v: View, m: seq<Slot>,
      states: seq<seq<State>>, x: nat, e: nat, j: nat, k: nat, looks0: seq<Look>, times0: seq<nat>, marks0: seq<nat>)
    returns (looks: seq<Look>, times: seq<nat>, marks: seq<nat>)
    requires Migrating(c, chain, mem, whole, v, m) && NoDup(chain)
    requires e < j < k < |chain| && chain[j] == x && c.Bit(chain[e]) != c.Bit(x) && x < |c.keys|
    requires k == NextOf(c, chain, e + 1, !c.Bit(x)) == v.frontier.At(!c.Bit(x))
    requires StatesOf(c, whole, states) && states[|whole| - 1] == OneHidden(|c.keys|, chain[j], chain[k])
    requires forall p | 0 <= p < |chain| :: chain[p] < |c.keys|
    requires Runs(c, whole, states, c.keys[x], looks0, times0, marks0)
    requires times0[|times0| - 1] == marks0[|marks0| - 1] == |whole| - 1
    requires Stands(c, chain, c.Bit(x), e, looks0[|looks0| - 1])
    ensures Runs(c, whole, states, c.keys[x], looks, times, marks) && times[0] == times0[0]
    ensures times[|times| - 1] == marks[|marks| - 1] == |whole| - 1
    ensures Becomes(m, states[|whole| - 1], c.keys[x], looks[|looks| - 1], NotFound)
  {
    hide TraceOk, Runs, NextOf, OldTail, Unseen, Migrating, Stands, NoDup, Continues, Becomes, LinkAt, OldLink;
    var b, t, n := c.Bit(x), |whole| - 1, |chain|;
    LastMoment(c, chain, mem, whole, v, m);
    RunTimes(c, whole, states, c.keys[x], looks0, times0, marks0);
    var st := states[t];
    var l := JumpOver(c, chain, mem, whole, v, m, st, c.keys[x], b, e, k, looks0[|looks0| - 1]);
    AddLook(c, whole, states, c.keys[x], looks0, times0, marks0, l, t);
    looks, times, marks := looks0 + [l], times0 + [t], marks0 + [t];
    StaleTail(c, chain, mem, whole, v, m, !b);
    TailPart(c, v, chain, k, n);
    OthersInvisible(c, chain, st, j, k, k + 1, n - 1);
    looks, times, marks := WalkOn(c, chain, whole, states, c.keys[x], b, t, k, n - 1, looks, times, marks);
    EndOfTail(c, chain, mem, whole, v, m, st, c.keys[x], b, looks[|looks| - 1]);
  }

  lemma TailPart(c: Split, v: View, chain: seq<nat>, k: nat, n: nat)
    requires OldTail(c, v, chain, k, n) && k < n == |chain|
    ensures OldTail(c, v, chain, k, n - 1) && LinkAt(c, v, n - 1) == OldLink(c, chain, n)
  {
  }

  /** In the dangerous constellation some lookup does miss. */
  lemma TrapMisses(c: Split, chain: seq<nat>, mem: seq<Slot>, x: nat, hidden: set<nat>, f: nat, e0: nat, j: nat)
    returns (trace: seq<Moment>, states: seq<seq<State>>, looks: seq<Look>, times: seq<nat>, marks: seq<nat>)
    requires ViewOk(c, Start(chain)) && Rendered(c, Start(chain), mem) && x !in hidden
    requires Trapped(c, chain, x, f, e0, j) && chain[Behind(c, chain, j)] in hidden
    ensures Misses(c, chain, mem, x, hidden, trace, states, looks, times, marks)
  {
    hide ViewOk, Rendered, TraceOk, Runs, NextOf, Migrating, Stands, NoDup, Becomes, StatesOf, OneHidden;
    var b, k := c.Bit(x), Behind(c, chain, j);
    ChainFacts(c, chain, mem, j);
    var e := LastOther(c, chain, b, e0, j);
    NextIsBehind(c, chain, x, e, j);
    var trace0, v0, m0 := Published(c, chain, mem);
    FirstBefore(c, chain, v0, !b, k);
    var v, m;
    trace, v, m := AdvanceTo(c, chain, mem, trace0, v0, m0, !b, k);
    var st := OneHidden(|c.keys|, chain[j], chain[k]);
    states := SameStates(c, trace, st);
    LastMoment(c, chain, mem, trace0, v0, m0);
    LastMoment(c, chain, mem, trace, v, m);
    StatesAt(c, trace, states);
    looks, times, marks := WalkUp(c, chain, mem, trace0, v0, m0, trace, states, x, f, e, j, k);
    var t := |trace| - 1;
    RunTimes(c, trace, states, c.keys[x], looks, times, marks);
    WaitUntil(c, trace, states, c.keys[x], looks, times, marks, t);
    times, marks := times[|times| - 1 := t], marks[|marks| - 1 := t];
    looks, times, marks := WalkDown(c, chain, mem, trace, v, m, states, x, e, j, k, looks, times, marks);
    RunTimes(c, trace, states, c.keys[x], looks, times, marks);
    HiddenOnly(c, x, chain[k], hidden);
    Kept(c, chain, mem, trace, v, m);
    forall s | 0 <= s < |states| ensures SharedBut(states[s], hidden) && states[s][x].Visible? {
    }
  }

  lemma StatesAt(c: Split, trace: seq<Moment>, states: seq<seq<State>>)
    requires StatesOf(c, trace, states)
    ensures |states| == |trace| && forall t | 0 <= t < |states| :: |states[t]| == |c.keys|
  {
  }

  lemma Kept(c: Split, chain: seq<nat>, mem: seq<Slot>, trace: seq<Moment>, v: View, m: seq<Slot>)
    requires Migrating(c, chain, mem, trace, v, m)
    ensures trace != [] && trace[0] == Moment(Start(chain), mem) && TraceOk(c, trace)
    ensures forall t | 0 <= t < |trace| :: KeepsBase(trace[t].view, chain)
  {
  }

  lemma HiddenOnly(c: Split, x: nat, y: nat, hidden: set<nat>)
    requires x < |c.keys| && y in hidden && x != y
    ensures SharedBut(OneHidden(|c.keys|, x, y), hidden) && OneHidden(|c.keys|, x, y)[x].Visible?
  {
  }

  lemma ChainFacts(c: Split, chain: seq<nat>, mem: seq<Slot>, j: nat)
    requires ViewOk(c, Start(chain)) && j < |chain|
    ensures NoDup(chain) && c.Belongs(chain[j]) && forall p | 0 <= p < |chain| :: chain[p] < |c.keys|
  {
    assert forall p | 0 <= p < |chain| :: c.Belongs(Start(chain).base[p]);
  }

  /** The first entry of the other chain behind the target is the next one after the last before it. */
  lemma NextIsBehind(c: Split, chain: seq<nat>, x: nat, e: nat, j: nat)
    requires e < j < |chain| && chain[j] == x && Behind(c, chain, j) < |chain|
    requires c.Bit(chain[e]) != c.Bit(x) && forall p | e < p < j :: c.Bit(chain[p]) == c.Bit(x)
    ensures NextOf(c, chain, e + 1, !c.Bit(x)) == Behind(c, chain, j) > j
    ensures c.Bit(chain[Behind(c, chain, j)]) == !c.Bit(x)
  {
    NextOfUnique(c, chain, e + 1, !c.Bit(x), Behind(c, chain, j));
  }

  lemma FirstBefore(c: Split, chain: seq<nat>, v: View, d: bool, k: nat)
    requires k < |chain| && c.Bit(chain[k]) == d
    requires v.frontier == Pair(NextOf(c, chain, 0, false), NextOf(c, chain, 0, true))
    ensures v.frontier.At(d) <= k
  {
  }

  /** Exactly when a lookup can miss: whatever the memory, a history of the split of a chain in which some
      lookup ends with "not found", although an entry with its key stays visible on the chain, exists if and
      only if the first entry of the other chain behind that entry may be under construction and entries of
      both chains come before it, one of its own chain before one of the other. */
  lemma MissExactly(c: Split, chain: seq<nat>, mem: seq<Slot>, x: nat, hidden: set<nat>)
    requires ViewOk(c, Start(chain)) && Rendered(c, Start(chain), mem) && x in chain && x !in hidden
    ensures CanMiss(c, chain, mem, x, hidden) <==> TrappedBy(c, chain, x, hidden)
  {
    hide ViewOk, Rendered, Misses, NextOf;
    if CanMiss(c, chain, mem, x, hidden) {
      var trace, states, looks, times, marks :|
        Misses(c, chain, mem, x, hidden, trace, states, looks, times, marks);
      MissNeedsTrap(c, chain, mem, x, hidden, trace, states, looks, times, marks);
    }
    if TrappedBy(c, chain, x, hidden) {
      var f, e, j :| 0 <= f < e < j < |chain| && Trapped(c, chain, x, f, e, j)
        && chain[Behind(c, chain, j)] in hidden;
      var trace, states, looks, times, marks := TrapMisses(c, chain, mem, x, hidden, f, e, j);
    }
  }

  // ---------------------------------------------------------------------------------------
  // The smallest case

  /** Four entries of home 0 on one chain: the first and third stay there, the others go to home 4. */
  const FOUR_KEYS := [HashedKey(1, 0), HashedKey(2, 4), HashedKey(3, 8), HashedKey(4, 12), HashedKey(0, 0)]

  function FourSlot(i: nat, head: Link): Slot
    requires i < 5
  {
    Slot(head, if i < 3 then Make(i + 1, 2) else MakeEnd(0, 2), FOUR_KEYS[i], 1, EMPTY_META)
  }

  const FOUR_SLOTS := [FourSlot(0, Make(0, 2)), FourSlot(1, UNUSED), FourSlot(2, UNUSED), FourSlot(3, UNUSED),
                       FourSlot(4, UNUSED)]

  /** With the last of the four under construction, a lookup of the third can miss it. */
  lemma FourEntries()
    ensures var c, chain := Split(FOUR_KEYS, 0, 4, 2), [0, 1, 2, 3];
      && ViewOk(c, Start(chain)) && Rendered(c, Start(chain), FOUR_SLOTS) && CanMiss(c, chain, FOUR_SLOTS, 2, {3})
  {
    var c, chain := Split(FOUR_KEYS, 0, 4, 2), [0, 1, 2, 3];
    assert Pow2(1) == 2 * Pow2(0) && Pow2(2) == 2 * Pow2(1) && Pow2(3) == 2 * Pow2(2);
    assert c.Belongs(0) && c.Belongs(1) && c.Belongs(2) && c.Belongs(3);
    assert !c.Bit(0) && c.Bit(1) && !c.Bit(2) && c.Bit(3);
    FourRendered(c, chain);
    NextOfUnique(c, chain, 3, true, 3);
    assert Trapped(c, chain, 2, 0, 1, 2);
    MissExactly(c, chain, FOUR_SLOTS, 2, {3});
  }

  lemma FourRendered(c: Split, chain: seq<nat>)
    requires c == Split(FOUR_KEYS, 0, 4, 2) && chain == [0, 1, 2, 3]
    ensures Rendered(c, Start(chain), FOUR_SLOTS)
  {
    forall i {:trigger OldLink(c, chain, i)} | 0 < i <= |chain|
      ensures ChainIs(FOUR_SLOTS, chain[i - 1], OldLink(c, chain, i))
    {
    }
  }
}
