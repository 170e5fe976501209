/** The displacement counts of FixedHyperClockTable under any interleaving of inserting, erasing,
    releasing and evicting threads. A slot's count must tell how many entries, wherever they ended up,
    had to pass over it; a lookup relies on it to stop probing early. */
module Displacements {
  import opened Arith
  import opened Slots
  import opened FixedProbe

  /** What matters of a slot here: free, owned by some thread, or holding a shareable entry. */
  datatype Cell = Free | Owned | Entry(key: HashedKey, visible: bool)

  /** Where each thread is in its operation. */
  datatype Op =
    | Idle
    | Probing(key: HashedKey, passed: nat)                 // inserting; counted the first `passed` probes
    | Passing(key: HashedKey, passed: nat)                 // about to count probe `passed` as well
    | Claimed(key: HashedKey, passed: nat)                 // owns the slot of probe `passed`
    | Undoing(key: HashedKey, done: nat, upto: nat)        // un-counting probes done..upto
    | Freeing(key: HashedKey, slot: nat, done: nat)        // owns `slot`; un-counting probes done.. up to it

  datatype Table = Table(bits: nat, cells: seq<Cell>, displacements: seq<nat>, ops: seq<Op>)

  datatype Action =
    | StartInsert(key: HashedKey)
    | TryProbe            // one TryInsert on the next slot of the probe sequence
    | CountProbe          // fetch-add on the displacement count of a slot that is taken
    | PublishEntry
    | Undo                // one decrement of a rollback, or its end
    | TakeToFree(slot: nat)
    | MarkEmpty
    | MarkInvisible(slot: nat)

  function Size(t: Table): nat { Pow2(t.bits) }

  ghost predicate Enabled(t: Table, me: nat, a: Action) {
    && me < |t.ops| && |t.cells| == |t.displacements| == Size(t)
    && match a
       case StartInsert(_) => t.ops[me].Idle?
       case TryProbe => t.ops[me].Probing?
       case CountProbe => t.ops[me].Passing?
       case PublishEntry => t.ops[me].Claimed?
       case Undo => t.ops[me].Undoing? || (t.ops[me].Freeing? && t.ops[me].done < Upto(t.bits, t.ops[me]))
       case TakeToFree(s) => t.ops[me].Idle? && s < |t.cells| && t.cells[s].Entry?
       // either before the rollback (Erase) or after it (Release, Evict)
       case MarkEmpty => t.ops[me].Freeing? && t.ops[me].slot < Size(t)
           && (t.ops[me].done == 0 || t.ops[me].done == Upto(t.bits, t.ops[me]))
       case MarkInvisible(s) => s < |t.cells| && t.cells[s].Entry?
  }

  /** The probe that reaches the slot being freed. */
  ghost function Upto(bits: nat, op: Op): nat
    requires op.Freeing?
  {
    if op.slot < Pow2(bits) then Dist(bits, op.key, op.slot) else 0
  }

  const UINT32 := 0x1_0000_0000

  /** Fetch-add on a 32-bit displacement count. */
  function Bump(d: seq<nat>, s: nat, delta: int): seq<nat>
    requires s < |d|
  {
    d[s := (d[s] + delta) % UINT32]
  }

  ghost function Next(t: Table, me: nat, a: Action): Table
    requires Enabled(t, me, a)
  {
    match a
    case StartInsert(key) => t.(ops := t.ops[me := Probing(key, 0)])
    case TryProbe =>
      var key, i := t.ops[me].key, t.ops[me].passed;
      var s := Probe(t.bits, key, i);
      if t.cells[s].Free? then
        t.(cells := t.cells[s := Owned], ops := t.ops[me := Claimed(key, i)])
      else if t.cells[s] == Entry(key, true) then
        // already there: stop searching and roll back
        t.(ops := t.ops[me := Undoing(key, 0, i)])
      else if i + 1 == Size(t) then
        // the next probe would cycle back to the first: roll back
        t.(ops := t.ops[me := Undoing(key, 0, i)])
      else
        t.(ops := t.ops[me := Passing(key, i)])
    case CountProbe =>
      var key, i := t.ops[me].key, t.ops[me].passed;
      t.(displacements := Bump(t.displacements, Probe(t.bits, key, i), 1), ops := t.ops[me := Probing(key, i + 1)])
    case PublishEntry =>
      var key, i := t.ops[me].key, t.ops[me].passed;
      var s := Probe(t.bits, key, i);
      t.(cells := t.cells[s := Entry(key, true)], ops := t.ops[me := Idle])
    case Undo =>
      var op := t.ops[me];
      if op.Undoing? && op.done >= op.upto then t.(ops := t.ops[me := Idle])
      else t.(displacements := Bump(t.displacements, Probe(t.bits, op.key, op.done), -1),
              ops := t.ops[me := op.(done := op.done + 1)])
    case TakeToFree(s) =>
      t.(cells := t.cells[s := Owned], ops := t.ops[me := Freeing(t.cells[s].key, s, 0)])
    case MarkEmpty =>
      var op := t.ops[me];
      t.(cells := t.cells[op.slot := Free], ops := t.ops[me := Undoing(op.key, op.done, Upto(t.bits, op))])
    case MarkInvisible(s) => t.(cells := t.cells[s := Entry(t.cells[s].key, false)])
  }

  // ---------------------------------------------------------------------------------------
  // What the counts must add up to
  // ---------------------------------------------------------------------------------------

  /** Probes from..to of a key's sequence. */
  datatype Span = Span(key: HashedKey, from: nat, to: nat)

  const NOTHING := Span(HashedKey(0, 0), 0, 0)

  ghost function Covers(bits: nat, p: Span, s: nat): nat
    requires s < Pow2(bits)
  {
    if p.from <= Dist(bits, p.key, s) < p.to then 1 else 0
  }

  ghost function Count(bits: nat, spans: seq<Span>, s: nat): nat
    requires s < Pow2(bits)
  {
    if spans == [] then 0 else Covers(bits, spans[0], s) + Count(bits, spans[1..], s)
  }

  /** An entry is counted on every slot its insertion passed over. */
  ghost function CellSpan(bits: nat, c: Cell, s: nat): Span {
    if c.Entry? && s < Pow2(bits) then Span(c.key, 0, Dist(bits, c.key, s)) else NOTHING
  }

  /** An unfinished operation is counted on the slots it has counted and not yet un-counted. */
  ghost function OpSpan(bits: nat, op: Op): Span {
    match op
    case Idle => NOTHING
    case Probing(key, passed) => Span(key, 0, passed)
    case Passing(key, passed) => Span(key, 0, passed)
    case Claimed(key, passed) => Span(key, 0, passed)
    case Undoing(key, done, upto) => Span(key, done, upto)
    case Freeing(key, slot, done) => Span(key, done, Upto(bits, op))
  }

  ghost function CellSpans(bits: nat, cells: seq<Cell>): seq<Span> {
    seq(|cells|, i requires 0 <= i < |cells| => CellSpan(bits, cells[i], i))
  }

  ghost function OpSpans(bits: nat, ops: seq<Op>): seq<Span> {
    seq(|ops|, i requires 0 <= i < |ops| => OpSpan(bits, ops[i]))
  }

  ghost predicate Owns(bits: nat, op: Op, s: nat) {
    || (op.Claimed? && Probe(bits, op.key, op.passed) == s)
    || (op.Freeing? && op.slot == s)
  }

  ghost predicate OpOk(bits: nat, op: Op) {
    match op
    case Idle => true
    case Probing(_, passed) => passed < Pow2(bits)
    case Passing(_, passed) => passed + 1 < Pow2(bits)
    case Claimed(_, passed) => passed < Pow2(bits)
    case Undoing(_, done, upto) => done <= upto < Pow2(bits)
    case Freeing(_, slot, done) => slot < Pow2(bits) && done <= Upto(bits, op)
  }

  /** Entries, in-flight inserts and pending rollbacks whose probes pass over slot `s`. */
  ghost function Total(t: Table, s: nat): nat
    requires s < Size(t)
  {
    Count(t.bits, CellSpans(t.bits, t.cells), s) + Count(t.bits, OpSpans(t.bits, t.ops), s)
  }

  ghost predicate Exact(t: Table, s: nat)
    requires |t.displacements| == Size(t) && s < Size(t)
  {
    t.displacements[s] == Total(t, s) % UINT32
  }

  /** Unfinished operations are within bounds, and a slot is owned by at most one of them. */
  ghost predicate Owners(t: Table) {
    && |t.cells| == |t.displacements| == Size(t)
    && (forall i | 0 <= i < |t.ops| :: OpOk(t.bits, t.ops[i]))
    && (forall i, s | 0 <= i < |t.ops| && 0 <= s < |t.cells| && Owns(t.bits, t.ops[i], s) :: t.cells[s].Owned?)
    && (forall i, j, s | 0 <= i < j < |t.ops| && Owns(t.bits, t.ops[i], s) :: !Owns(t.bits, t.ops[j], s))
  }

  ghost predicate Inv(t: Table) {
    Owners(t) && forall s | 0 <= s < Size(t) :: Exact(t, s)
  }

  lemma {:induction false} CountUpdate(bits: nat, spans: seq<Span>, k: nat, p: Span, s: nat)
    requires s < Pow2(bits) && k < |spans|
    ensures Count(bits, spans[k := p], s) == Count(bits, spans, s) - Covers(bits, spans[k], s) + Covers(bits, p, s)
  {
    var u := spans[k := p];
    if k == 0 {
      assert u[1..] == spans[1..];
    } else {
      CountUpdate(bits, spans[1..], k - 1, p, s);
      assert u[1..] == spans[1..][k - 1 := p];
    }
  }

  lemma {:induction false} CountAtLeast(bits: nat, spans: seq<Span>, k: nat, s: nat)
    requires s < Pow2(bits) && k < |spans|
    ensures Covers(bits, spans[k], s) <= Count(bits, spans, s)
  {
    if k > 0 {
      CountAtLeast(bits, spans[1..], k - 1, s);
    }
  }

  /** Replacing one operation changes the count by the difference of its spans. */
  lemma OpChange(bits: nat, ops: seq<Op>, me: nat, op: Op, s: nat)
    requires me < |ops| && s < Pow2(bits)
    ensures Count(bits, OpSpans(bits, ops[me := op]), s)
         == Count(bits, OpSpans(bits, ops), s) - Covers(bits, OpSpan(bits, ops[me]), s) + Covers(bits,
             OpSpan(bits, op), s)
  {
    CountUpdate(bits, OpSpans(bits, ops), me, OpSpan(bits, op), s);
    assert OpSpans(bits, ops[me := op]) == OpSpans(bits, ops)[me := OpSpan(bits, op)];
  }

  lemma CellChange(bits: nat, cells: seq<Cell>, x: nat, c: Cell, s: nat)
    requires x < |cells| && s < Pow2(bits)
    ensures Count(bits, CellSpans(bits, cells[x := c]), s)
         == Count(bits, CellSpans(bits, cells), s) - Covers(bits, CellSpan(bits, cells[x], x), s) + Covers(bits,
             CellSpan(bits, c, x), s)
  {
    CountUpdate(bits, CellSpans(bits, cells), x, CellSpan(bits, c, x), s);
    assert CellSpans(bits, cells[x := c]) == CellSpans(bits, cells)[x := CellSpan(bits, c, x)];
  }

  // ---------------------------------------------------------------------------------------
  // Every step keeps the counts exact
  // ---------------------------------------------------------------------------------------

  lemma OneMoreProbe(bits: nat, key: HashedKey, from: nat, i: nat, s: nat)
    requires s < Pow2(bits) && from <= i < Pow2(bits)
    ensures Covers(bits, Span(key, from, i + 1), s)
         == Covers(bits, Span(key, from, i), s) + if s == Probe(bits, key, i) then 1 else 0
    ensures Covers(bits, Span(key, i, i), s) == 0
  {
    DistIs(bits, key, i);
  }

  lemma OneLessProbe(bits: nat, key: HashedKey, i: nat, to: nat, s: nat)
    requires s < Pow2(bits) && i < to <= Pow2(bits)
    ensures Covers(bits, Span(key, i, to), s)
         == Covers(bits, Span(key, i + 1, to), s) + if s == Probe(bits, key, i) then 1 else 0
  {
    DistIs(bits, key, i);
  }

  /** A step changes the total for slot `s` by as much as it adds to that slot's count. */
  ghost predicate Follows(t: Table, u: Table, s: nat) {
    && u.bits == t.bits && s < Size(t) && |t.displacements| == |u.displacements| == Size(t)
    && u.displacements[s] == (t.displacements[s] + (Total(u, s) - Total(t, s))) % UINT32
  }

  lemma ProbeFollows(t: Table, me: nat, a: Action, s: nat)
    requires Inv(t) && Enabled(t, me, a) && s < Size(t) && (a.TryProbe? || a.CountProbe?)
    ensures Follows(t, Next(t, me, a), s)
  {
    hide Dist, Probe, Pow2, Count;
    var u, op := Next(t, me, a), t.ops[me];
    assert OpOk(t.bits, op);
    OpChange(t.bits, t.ops, me, u.ops[me], s);
    OneMoreProbe(t.bits, op.key, 0, op.passed, s);
    var x := Probe(t.bits, op.key, op.passed);
    CellChange(t.bits, t.cells, x, Owned, s);
    Small(t, s);
  }

  lemma UndoFollows(t: Table, me: nat, s: nat)
    requires Inv(t) && Enabled(t, me, Undo) && s < Size(t)
    ensures Follows(t, Next(t, me, Undo), s)
  {
    hide Dist, Probe, Pow2, Count;
    var u, op := Next(t, me, Undo), t.ops[me];
    assert OpOk(t.bits, op);
    OpChange(t.bits, t.ops, me, u.ops[me], s);
    var upto := if op.Undoing? then op.upto else Upto(t.bits, op);
    if op.done < upto {
      OneLessProbe(t.bits, op.key, op.done, upto, s);
    }
    Small(t, s);
  }

  lemma CellFollows(t: Table, me: nat, a: Action, s: nat)
    requires Inv(t) && Enabled(t, me, a) && s < Size(t) && !a.TryProbe? && !a.CountProbe? && !a.Undo?
    ensures Follows(t, Next(t, me, a), s)
  {
    hide Dist, Probe, Pow2, Count;
    var u, op := Next(t, me, a), t.ops[me];
    assert OpOk(t.bits, op);
    Small(t, s);
    OpChange(t.bits, t.ops, me, u.ops[me], s);
    match a
    case StartInsert(key) =>
    case PublishEntry =>
      var x := Probe(t.bits, op.key, op.passed);
      assert Owns(t.bits, op, x);
      DistIs(t.bits, op.key, op.passed);
      CellChange(t.bits, t.cells, x, Entry(op.key, true), s);
    case TakeToFree(x) =>
      CellChange(t.bits, t.cells, x, Owned, s);
    case MarkEmpty =>
      assert Owns(t.bits, op, op.slot);
      CellChange(t.bits, t.cells, op.slot, Free, s);
    case MarkInvisible(x) =>
      assert t.ops[me := t.ops[me]] == t.ops;
      CellChange(t.bits, t.cells, x, Entry(t.cells[x].key, false), s);
  }

  lemma Small(t: Table, s: nat)
    requires Inv(t) && s < Size(t)
    ensures t.displacements[s] < UINT32 && t.displacements[s] % UINT32 == t.displacements[s]
  {
    hide Total, Pow2;
    assert Exact(t, s);
    ModUnique(t.displacements[s], UINT32, 0, t.displacements[s]);
  }

  /** Changing one operation and one cell keeps single ownership if the operation then owns at most
      that cell, and nobody else owned it. */
  lemma OwnersUpdate(t: Table, me: nat, op: Op, x: nat, c: Cell, d: seq<nat>)
    requires Owners(t) && me < |t.ops| && x < |t.cells| && |d| == |t.displacements| && OpOk(t.bits, op)
    requires forall s | Owns(t.bits, op, s) :: Owns(t.bits, t.ops[me], s) || (s == x && !t.cells[x].Owned?)
    requires Owns(t.bits, op, x) ==> c.Owned?
    requires c == t.cells[x] || Owns(t.bits, t.ops[me], x) || !t.cells[x].Owned?
    ensures Owners(Table(t.bits, t.cells[x := c], d, t.ops[me := op]))
  {
    hide Dist, Pow2, Probe, Owns, OpOk;
    var u := Table(t.bits, t.cells[x := c], d, t.ops[me := op]);
    forall i, s | 0 <= i < |u.ops| && 0 <= s < |u.cells| && Owns(u.bits, u.ops[i], s) ensures u.cells[s].Owned? {
      if i != me {
        assert t.cells[s].Owned? && Owns(t.bits, t.ops[i], s);
      }
    }
    forall i, j, s | 0 <= i < j < |u.ops| && Owns(u.bits, u.ops[i], s) ensures !Owns(u.bits, u.ops[j], s) {
    }
  }

  /** A slot under construction keeps exactly one owner. */
  lemma StepKeepsOwners(t: Table, me: nat, a: Action)
    requires Owners(t) && Enabled(t, me, a)
    ensures Owners(Next(t, me, a))
  {
    hide Dist, Pow2, Probe, Owners;
    var u, op := Next(t, me, a), t.ops[me];
    OwnersOf(t, me);
    var x := match a
      case TryProbe => Probe(t.bits, op.key, op.passed)
      case PublishEntry => Probe(t.bits, op.key, op.passed)
      case TakeToFree(s) => s
      case MarkEmpty => op.slot
      case MarkInvisible(s) => s
      case _ => Probe(t.bits, HashedKey(0, 0), 0);
    OwnersUpdate(t, me, u.ops[me], x, u.cells[x], u.displacements);
    assert u == Table(t.bits, t.cells[x := u.cells[x]], u.displacements, t.ops[me := u.ops[me]]);
  }

  lemma OwnersOf(t: Table, me: nat)
    requires Owners(t) && me < |t.ops|
    ensures |t.cells| == |t.displacements| == Size(t) && OpOk(t.bits, t.ops[me])
    ensures forall s | 0 <= s < |t.cells| && Owns(t.bits, t.ops[me], s) :: t.cells[s].Owned?
  {
  }

  lemma StepKeepsInv(t: Table, me: nat, a: Action)
    requires Inv(t) && Enabled(t, me, a)
    ensures Inv(Next(t, me, a))
  {
    hide Dist, Pow2, Probe, Count, Total, Next, Enabled;
    var u := Next(t, me, a);
    StepKeepsOwners(t, me, a);
    forall s | 0 <= s < Size(t) ensures Follows(t, u, s) && Exact(u, s) {
      StepFollows(t, me, a, s);
      assert Exact(t, s);
      ModAddMod(Total(t, s), Total(u, s) - Total(t, s), UINT32);
    }
    StepKeepsSize(t, me, a);
  }

  lemma StepFollows(t: Table, me: nat, a: Action, s: nat)
    requires Inv(t) && Enabled(t, me, a) && s < Size(t)
    ensures Follows(t, Next(t, me, a), s)
  {
    hide Dist, Pow2, Probe, Count, Total, Follows;
    if a.TryProbe? || a.CountProbe? {
      ProbeFollows(t, me, a, s);
    } else if a.Undo? {
      UndoFollows(t, me, s);
    } else {
      CellFollows(t, me, a, s);
    }
  }

  lemma StepKeepsSize(t: Table, me: nat, a: Action)
    requires Enabled(t, me, a)
    ensures Next(t, me, a).bits == t.bits && Size(Next(t, me, a)) == Size(t)
  {
  }

  // ---------------------------------------------------------------------------------------
  // Whole runs
  // ---------------------------------------------------------------------------------------

  datatype Event = Event(thread: nat, action: Action)

  ghost predicate Init(t: Table) {
    && |t.cells| == |t.displacements| == Size(t)
    && (forall s | 0 <= s < |t.cells| :: t.cells[s].Free? && t.displacements[s] == 0)
    && (forall i | 0 <= i < |t.ops| :: t.ops[i].Idle?)
  }

  ghost predicate IsRun(run: seq<Table>, events: seq<Event>) {
    && |run| == |events| + 1 && Init(run[0])
    && forall i | 0 <= i < |events| ::
         Enabled(run[i], events[i].thread, events[i].action)
             && run[i + 1] == Next(run[i], events[i].thread, events[i].action)
  }

  lemma {:induction false} CountNothing(bits: nat, spans: seq<Span>, s: nat)
    requires s < Pow2(bits) && forall i | 0 <= i < |spans| :: spans[i] == NOTHING
    ensures Count(bits, spans, s) == 0
  {
    if spans != [] {
      CountNothing(bits, spans[1..], s);
    }
  }

  /** At every moment of every interleaving, each displacement count is the number of entries,
      in-flight inserts and pending rollbacks whose probe path passes over that slot (as a 32-bit
      number), and every slot under construction has one owner. */
  lemma {:induction false} EveryMoment(run: seq<Table>, events: seq<Event>, i: nat)
    requires IsRun(run, events) && i < |run|
    ensures Inv(run[i])
  {
    if i == 0 {
      var t := run[0];
      forall s | 0 <= s < Size(t) ensures Exact(t, s) {
        CountNothing(t.bits, CellSpans(t.bits, t.cells), s);
        CountNothing(t.bits, OpSpans(t.bits, t.ops), s);
      }
    } else {
      EveryMoment(run, events, i - 1);
      StepKeepsInv(run[i - 1], events[i - 1].thread, events[i - 1].action);
      assert run[i - 1 + 1] == Next(run[i - 1], events[i - 1].thread, events[i - 1].action);
    }
  }

  lemma {:induction false} CountBound(bits: nat, spans: seq<Span>, s: nat)
    requires s < Pow2(bits)
    ensures Count(bits, spans, s) <= |spans|
  {
    if spans != [] {
      CountBound(bits, spans[1..], s);
    }
  }

  /** While an entry is in the table, the count is positive on every slot before it in its probe
      sequence, provided slots and threads together number fewer than 2^32. */
  lemma DisplacedAhead(t: Table, x: nat, i: nat)
    requires Inv(t) && |t.cells| + |t.ops| < UINT32
    requires x < |t.cells| && t.cells[x].Entry? && i < Dist(t.bits, t.cells[x].key, x)
    ensures Probe(t.bits, t.cells[x].key, i) < |t.displacements|
    ensures t.displacements[Probe(t.bits, t.cells[x].key, i)] > 0
  {
    hide Dist, Probe, Pow2, Count, OpSpan;
    var key := t.cells[x].key;
    var s := Probe(t.bits, key, i);
    DistIs(t.bits, key, i);
    assert CellSpans(t.bits, t.cells)[x] == Span(key, 0, Dist(t.bits, key, x));
    CountAtLeast(t.bits, CellSpans(t.bits, t.cells), x, s);
    CountBound(t.bits, CellSpans(t.bits, t.cells), s);
    CountBound(t.bits, OpSpans(t.bits, t.ops), s);
    assert Exact(t, s);
  }

  lemma {:induction false} SameSize(run: seq<Table>, events: seq<Event>, i: nat)
    requires IsRun(run, events) && i < |run|
    ensures run[i].bits == run[0].bits
  {
    if i > 0 {
      SameSize(run, events, i - 1);
      StepKeepsSize(run[i - 1], events[i - 1].thread, events[i - 1].action);
      assert run[i - 1 + 1] == Next(run[i - 1], events[i - 1].thread, events[i - 1].action);
    }
  }

  /** A lookup that runs between moments `start` and `stop` has found no match in its first |seen|
      probes, the i-th of which it examined at moment seen[i]. */
  ghost predicate Unmatched(run: seq<Table>, key: HashedKey, start: nat, stop: nat, seen: seq<nat>) {
    && start <= stop < |run|
    && forall i | 0 <= i < |seen| ::
         && start <= seen[i] <= stop && |run[seen[i]].cells| == Size(run[seen[i]])
         && run[seen[i]].cells[Probe(run[seen[i]].bits, key, i)] != Entry(key, true)
  }

  /** While an entry stays visible, a lookup that has found no match so far either stands right before that
      entry's slot, or reads a positive count there and is not at its last probe, whenever it reads it. */
  lemma LookupGoesOn(run: seq<Table>, events: seq<Event>, key: HashedKey, x: nat, start: nat, stop: nat,
      seen: seq<nat>, now: nat)
    requires IsRun(run, events) && Unmatched(run, key, start, stop, seen) && start <= now <= stop
    requires forall k | start <= k <= stop :: x < |run[k].cells| && run[k].cells[x] == Entry(key, true)
    requires |run[now].cells| + |run[now].ops| < UINT32 && |seen| < Size(run[now])
    ensures var t := run[now];
      var s := Probe(t.bits, key, |seen|);
      && s < |t.cells| == |t.displacements|
      && (s == x || (t.displacements[s] > 0 && |seen| + 1 < Size(t)))
  {
    var t := run[now];
    EveryMoment(run, events, now);
    SameSize(run, events, now);
    var d := Dist(t.bits, key, x);
    if |seen| > d {
      SameSize(run, events, seen[d]);
      assert false;
    }
    if |seen| < d {
      DisplacedAhead(t, x, |seen|);
    }
  }

  // ---------------------------------------------------------------------------------------
  // A whole lookup
  // ---------------------------------------------------------------------------------------

  datatype Result = Found(slot: nat, probe: nat) | Missed

  /** The moments of a lookup in a run: probe `i` examines its slot at seen[i] and, if it goes on to that,
      reads the slot's count at read[i]. */
  ghost predicate Times(run: seq<Table>, start: nat, stop: nat, seen: seq<nat>, read: seq<nat>) {
    && start <= stop < |run| && |seen| == |read| == Size(run[start])
    && (forall i | 0 <= i < |seen| :: start <= seen[i] <= read[i] <= stop)
    && (forall i | 0 <= i < |seen| - 1 :: read[i] <= seen[i + 1])
  }

  /** FindSlot as Lookup uses it, from probe `i` on. */
  ghost function Search(run: seq<Table>, key: HashedKey, seen: seq<nat>, read: seq<nat>, i: nat): Result
    requires i < |seen| == |read|
    requires forall j | 0 <= j < |seen| :: seen[j] < |run| && read[j] < |run|
    requires forall k | 0 <= k < |run| :: |run[k].cells| == |run[k].displacements| == Size(run[k]) == |seen|
    decreases |seen| - i
  {
    var s := Probe(run[seen[i]].bits, key, i);
    assert s < Size(run[seen[i]]) == |run[seen[i]].cells|;
    if run[seen[i]].cells[s] == Entry(key, true) then Found(s, i)
    else if run[read[i]].displacements[s] == 0 then Missed
    else if i + 1 == |seen| then Missed
    else Search(run, key, seen, read, i + 1)
  }

  lemma RunSizes(run: seq<Table>, events: seq<Event>, start: nat)
    requires IsRun(run, events) && start < |run|
    ensures forall k | 0 <= k < |run| :: |run[k].cells| == |run[k].displacements| == Size(run[k]) == Size(run[start])
  {
    forall k | 0 <= k < |run|
      ensures |run[k].cells| == |run[k].displacements| == Size(run[k]) == Size(run[start])
    {
      EveryMoment(run, events, k);
      SameSize(run, events, k);
      SameSize(run, events, start);
    }
  }

  lemma {:induction false} SearchFinds(run: seq<Table>, events: seq<Event>, key: HashedKey, x: nat, start: nat,
      stop: nat, seen: seq<nat>, read: seq<nat>, i: nat)
    requires IsRun(run, events) && Times(run, start, stop, seen, read) && i < |seen|
    requires forall k | start <= k <= stop :: x < |run[k].cells| && run[k].cells[x] == Entry(key, true)
    requires forall k | start <= k <= stop :: |run[k].cells| + |run[k].ops| < UINT32
    requires forall k | 0 <= k < |run| :: |run[k].cells| == |run[k].displacements| == Size(run[k]) == |seen|
    requires Unmatched(run, key, start, stop, seen[..i])
    ensures var r := Search(run, key, seen, read, i);
      && r.Found? && r.probe < |seen| && r.slot == Probe(run[seen[r.probe]].bits, key, r.probe)
      && run[seen[r.probe]].cells[r.slot] == Entry(key, true)
    decreases |seen| - i
  {
    hide Dist, Pow2, Probe, Enabled, Next;
    SameSize(run, events, seen[i]);
    SameSize(run, events, read[i]);
    var s := Probe(run[seen[i]].bits, key, i);
    LookupGoesOn(run, events, key, x, start, stop, seen[..i], read[i]);
    if run[seen[i]].cells[s] != Entry(key, true) {
      assert s != x;
      assert Unmatched(run, key, start, stop, seen[..i + 1]) by {
        assert forall j | 0 <= j < i :: seen[..i + 1][j] == seen[..i][j];
      }
      SearchFinds(run, events, key, x, start, stop, seen, read, i + 1);
    }
  }

  /** A lookup in the midst of any interleaving ends in a match if some entry with the key stays visible
      meanwhile; and what it returns was a visible entry with the key when it looked. */
  lemma LookupFinds(run: seq<Table>, events: seq<Event>, key: HashedKey, x: nat, start: nat, stop: nat,
      seen: seq<nat>, read: seq<nat>)
    requires IsRun(run, events) && Times(run, start, stop, seen, read)
    requires forall k | start <= k <= stop :: x < |run[k].cells| && run[k].cells[x] == Entry(key, true)
    requires forall k | start <= k <= stop :: |run[k].cells| + |run[k].ops| < UINT32
    ensures forall k | 0 <= k < |run| :: |run[k].cells| == |run[k].displacements| == Size(run[k]) == |seen| > 0
    ensures var r := Search(run, key, seen, read, 0);
      && r.Found? && r.probe < |seen| && r.slot == Probe(run[seen[r.probe]].bits, key, r.probe)
      && run[seen[r.probe]].cells[r.slot] == Entry(key, true)
  {
    hide Dist, Probe, Enabled, Next;
    RunSizes(run, events, start);
    assert Unmatched(run, key, start, stop, seen[..0]);
    SearchFinds(run, events, key, x, start, stop, seen, read, 0);
  }
}
