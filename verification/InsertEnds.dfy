/** Inserting into the Fixed table, and giving a slot back, end: nobody waits for anybody, and the number of
    a thread's own steps is bounded. Left alone, an insert takes the first slot it can. */
module InsertEnds {
  import opened Arith
  import opened Slots
  import opened FixedProbe
  import opened Displacements

  /** Actions that begin an operation, or that are an operation of their own. */
  predicate Begins(a: Action) { a.StartInsert? || a.TakeToFree? || a.MarkInvisible? }

  /** A bound on the steps that a thread has still to make in its operation. */
  ghost function Weight(t: Table, op: Op): int {
    match op
    case Idle => 0
    case Claimed(_, _) => 1
    case Probing(_, i) => 3 * Size(t) - 2 * i
    case Passing(_, i) => 3 * Size(t) - 2 * i - 1
    case Undoing(_, done, upto) => upto - done + 1
    case Freeing(_, _, done) => Upto(t.bits, op) - done + 2
  }

  /** The next action of a thread with an operation under way. */
  ghost function Onwards(t: Table, op: Op): Action
    requires !op.Idle?
  {
    match op
    case Claimed(_, _) => PublishEntry
    case Probing(_, _) => TryProbe
    case Passing(_, _) => CountProbe
    case Undoing(_, _, _) => Undo
    case Freeing(_, _, done) => if done < Upto(t.bits, op) then Undo else MarkEmpty
  }

  /** A thread can always go on, and every step of an operation brings it closer to the end, whatever the
      table has come to look like. */
  lemma OwnStep(t: Table, me: nat, a: Action)
    requires Inv(t) && Enabled(t, me, a) && !Begins(a)
    ensures me < |Next(t, me, a).ops| && Next(t, me, a).bits == t.bits
    ensures 0 <= Weight(Next(t, me, a), Next(t, me, a).ops[me]) < Weight(t, t.ops[me])
  {
    hide Dist, Probe, Exact, Pow2;
    assert OpOk(t.bits, t.ops[me]);
  }

  lemma NeverWaits(t: Table, me: nat)
    requires Inv(t) && me < |t.ops| && !t.ops[me].Idle?
    ensures Enabled(t, me, Onwards(t, t.ops[me])) && !Begins(Onwards(t, t.ops[me]))
  {
    hide Dist, Probe, Exact, Pow2;
    assert OpOk(t.bits, t.ops[me]);
  }

  /** Steps of other threads leave it where it is. */
  lemma OthersStep(t: Table, u: nat, a: Action, me: nat)
    requires Enabled(t, u, a) && me < |t.ops| && me != u
    ensures me < |Next(t, u, a).ops| && Next(t, u, a).ops[me] == t.ops[me] && Next(t, u, a).bits == t.bits
    ensures Weight(Next(t, u, a), t.ops[me]) == Weight(t, t.ops[me])
  {
    hide Dist, Probe, Pow2;
  }

  /** The first probe from `i` on that finds a free slot or a match, or the number of slots. */
  ghost function FirstStop(t: Table, key: HashedKey, i: nat): (n: nat)
    requires |t.cells| == Size(t) && i <= Size(t)
    ensures i <= n <= Size(t)
    ensures n < Size(t) ==> t.cells[Probe(t.bits, key, n)] == Free || t.cells[Probe(t.bits, key, n)] == Entry(key, true)
    ensures forall k | i <= k < n ::
        t.cells[Probe(t.bits, key, k)] != Free && t.cells[Probe(t.bits, key, k)] != Entry(key, true)
    decreases Size(t) - i
  {
    if i == Size(t) then i
    else
      var cell := t.cells[Probe(t.bits, key, i)];
      if cell == Free || cell == Entry(key, true) then i else FirstStop(t, key, i + 1)
  }

  /** A part of a run, from any moment on. */
  ghost predicate IsPart(part: seq<Table>, events: seq<Event>) {
    && |part| == |events| + 1 && Inv(part[0])
    && forall i | 0 <= i < |events| :: IsStep(part[i], events[i], part[i + 1])
  }

  ghost predicate IsStep(t: Table, e: Event, n: Table) {
    Enabled(t, e.thread, e.action) && n == Next(t, e.thread, e.action)
  }

  function StepsOf(events: seq<Event>, me: nat): nat {
    if events == [] then 0
    else StepsOf(events[..|events| - 1], me) + if events[|events| - 1].thread == me then 1 else 0
  }

  /** However many steps other threads make meanwhile, a thread makes at most as many as its weight says
      before its operation is over. */
  lemma {:induction false} StepsBounded(part: seq<Table>, events: seq<Event>, me: nat)
    requires IsPart(part, events) && me < |part[0].ops|
    requires forall i | 0 <= i < |events| && events[i].thread == me :: !Begins(events[i].action)
    ensures var end := part[|events|];
      && Inv(end) && me < |end.ops|
      && StepsOf(events, me) + Weight(end, end.ops[me]) <= Weight(part[0], part[0].ops[me])
  {
    hide Inv, Enabled, Next, Weight;
    if events != [] {
      var n := |events| - 1;
      assert IsPart(part[..n + 1], events[..n]);
      StepsBounded(part[..n + 1], events[..n], me);
      assert IsStep(part[n], events[n], part[n + 1]);
      StepKeepsInv(part[n], events[n].thread, events[n].action);
      if events[n].thread == me {
        OwnStep(part[n], me, events[n].action);
      } else {
        OthersStep(part[n], events[n].thread, events[n].action, me);
      }
    }
  }

  /** What an operation has still to do to the cells if it is left alone: an insert takes the first free slot
      of the rest of its probe sequence, unless it meets a match before. */
  ghost function Result(t: Table, op: Op): seq<Cell>
    requires |t.cells| == Size(t) && OpOk(t.bits, op)
  {
    match op
    case Probing(key, i) => Placed(t, key, FirstStop(t, key, i))
    case Passing(key, i) => Placed(t, key, FirstStop(t, key, i + 1))
    case Claimed(key, i) => t.cells[Probe(t.bits, key, i) := Entry(key, true)]
    case Freeing(_, slot, _) => t.cells[slot := Free]
    case _ => t.cells
  }

  ghost function Placed(t: Table, key: HashedKey, n: nat): seq<Cell>
    requires |t.cells| == Size(t)
  {
    if n < Size(t) && t.cells[Probe(t.bits, key, n)] == Free then t.cells[Probe(t.bits, key, n) := Entry(key, true)]
    else t.cells
  }

  lemma ResultKept(t: Table, me: nat)
    requires Inv(t) && me < |t.ops| && !t.ops[me].Idle?
    requires Enabled(t, me, Onwards(t, t.ops[me]))
    ensures OpOk(t.bits, t.ops[me])
    ensures var n := Next(t, me, Onwards(t, t.ops[me]));
      && n.bits == t.bits && |n.cells| == Size(n) && me < |n.ops| && OpOk(n.bits, n.ops[me])
      && n.ops == t.ops[me := n.ops[me]] && Result(n, n.ops[me]) == Result(t, t.ops[me])
  {
    hide Dist, Probe, Exact, Pow2, FirstStop;
    assert OpOk(t.bits, t.ops[me]);
    var n := Next(t, me, Onwards(t, t.ops[me]));
    StepKeepsInv(t, me, Onwards(t, t.ops[me]));
    if t.ops[me].Passing? {
      StopSame(t, n, t.ops[me].key, t.ops[me].passed + 1);
    } else if t.ops[me].Probing? {
      StopAt(t, t.ops[me].key, t.ops[me].passed);
    }
  }

  lemma StopAt(t: Table, key: HashedKey, i: nat)
    requires |t.cells| == Size(t) && i < Size(t)
    ensures var cell := t.cells[Probe(t.bits, key, i)];
      FirstStop(t, key, i) == if cell == Free || cell == Entry(key, true) then i else FirstStop(t, key, i + 1)
    ensures FirstStop(t, key, Size(t)) == Size(t)
  {
    hide Probe, Pow2;
  }

  lemma {:induction false} StopSame(t: Table, n: Table, key: HashedKey, i: nat)
    requires |t.cells| == Size(t) && i <= Size(t) && n.bits == t.bits && n.cells == t.cells
    ensures FirstStop(n, key, i) == FirstStop(t, key, i)
    decreases Size(t) - i
  {
    if i < Size(t) {
      StopSame(t, n, key, i + 1);
    }
  }

  /** Alone from any moment on, an operation ends within its bound, with that result, and touches no other
      operation. */
  lemma {:induction false} Finishes(t: Table, me: nat) returns (part: seq<Table>, events: seq<Event>)
    requires Inv(t) && me < |t.ops|
    ensures IsPart(part, events) && part[0] == t && |events| <= Weight(t, t.ops[me])
    ensures forall i | 0 <= i < |events| :: events[i].thread == me && !Begins(events[i].action)
    ensures OpOk(t.bits, t.ops[me]) && |t.cells| == Size(t)
    ensures var end := part[|events|];
      && end.bits == t.bits && end.ops == t.ops[me := Idle] && end.cells == Result(t, t.ops[me])
    decreases Weight(t, t.ops[me])
  {
    hide Enabled, Next, Weight, Inv, Onwards, Result, OpOk;
    Whole(t, me);
    if t.ops[me].Idle? {
      part, events := [t], [];
      assert t.ops == t.ops[me := Idle];
    } else {
      var a := Onwards(t, t.ops[me]);
      NeverWaits(t, me);
      OwnStep(t, me, a);
      StepKeepsInv(t, me, a);
      ResultKept(t, me);
      var p, e := Finishes(Next(t, me, a), me);
      part, events := [t] + p, [Event(me, a)] + e;
    }
  }

  lemma Whole(t: Table, me: nat)
    requires Inv(t) && me < |t.ops|
    ensures OpOk(t.bits, t.ops[me]) && |t.cells| == Size(t)
    ensures t.ops[me].Idle? ==> Result(t, t.ops[me]) == t.cells && Weight(t, t.ops[me]) == 0
  {
  }
}
