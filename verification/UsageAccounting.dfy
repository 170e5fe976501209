/** usage_, occupancy_ and standalone_usage_ of a HyperClockCache table while any number of threads
    insert, evict, create standalone entries and release or erase entries. Each atomic load, CAS or
    fetch-add on a counter is one step; counters are 64-bit and wrap. */
module UsageAccounting {
  import opened Arith

  function Wrap64(x: int): (w: nat)
    ensures w < WORD && (0 <= x < WORD ==> w == x)
  {
    x % WORD
  }

  /** A table slot or a heap-allocated standalone handle. */
  datatype Spot = Vacant | Holding(charge: nat)

  /** Insert (with or without a handle wanted), or CreateStandalone (with or without allow_uncharged). */
  datatype Kind = ToTable(keep: bool) | ToHeap(uncharged: bool)

  /** An eviction run: what it is for, how much it needs and has grabbed up front, and what it freed. */
  datatype Job = Job(kind: Kind, charge: nat, crowded: bool, strict: bool, need: nat, grabbed: int, freed: nat,
      count: nat)

  /** Where a thread is in its operation. */
  datatype Op =
    | Idle
    | Began(kind: Kind, charge: nat, crowded: bool)          // `crowded`: need_evict_for_occupancy
    | Capped(kind: Kind, charge: nat, crowded: bool, cap: nat)
    | Seen(kind: Kind, charge: nat, crowded: bool, cap: nat, seen: nat)
    | SeenLoose(kind: Kind, charge: nat, crowded: bool, seen: nat)
    | Evicting(job: Job)
    | Settling(job: Job)                                     // evicted; usage_ is still to be adjusted
    | Failed(kind: Kind, charge: nat, strict: bool)
    | Forced(charge: nat)                                    // must count a fallback standalone entry
    | Charged(kind: Kind, charge: nat)
    | NotInserted(keep: bool, charge: nat)
    | Refunding(charge: nat)
    | Standing(charge: nat)                                  // StandaloneInsert is next
    | Reclaiming(charge: nat)                                // took an entry off the table
    | Deleting(charge: nat)                                  // deleted a standalone handle
    | Returning(charge: nat)                                 // usage_ is still to be reduced

  datatype World = World(usage: nat, occupancy: nat, standalone: nat, capacity: nat, strict: bool, limit: nat,
                         metadata: nat, table: seq<Spot>, heap: seq<Spot>, ops: seq<Op>)

  datatype Action =
    | StartInsert(charge: nat, keep: bool)
    | StartStandalone(charge: nat, uncharged: bool)
    | Go                        // the next load, CAS or fetch-add
    | EvictOne(slot: nat)
    | StopEvicting
    | Fill(slot: nat)           // DoInsert finds room
    | NoRoom                    // DoInsert finds a match, or no room
    | TakeEntry(slot: nat)      // Release, Erase or EraseUnRefEntries frees an entry
    | DeleteHandle(h: nat)      // Release frees a standalone entry
    | SetCapacity(capacity: nat)
    | SetStrict(strict: bool)
    | Grow(metadata: nat)       // the Auto table takes another page into use

  datatype Place = Nowhere | InTable(slot: nat) | InHeap(h: nat) | NewInHeap

  /** What one step does: amounts added to the counters, one spot changed, and the thread's next state. */
  datatype Delta = Delta(usage: int, occupancy: int, standalone: int, place: Place, spot: Spot, op: Op)

  function Only(op: Op): Delta { Delta(0, 0, 0, Nowhere, Vacant, op) }

  function Counting(usage: int, occupancy: int, op: Op): Delta { Delta(usage, occupancy, 0, Nowhere, Vacant, op) }

  predicate Enabled(w: World, me: nat, a: Action) {
    && me < |w.ops|
    && var op := w.ops[me];
       match a
       case StartInsert(c, _) => op.Idle? && c < WORD
       case StartStandalone(c, _) => op.Idle? && c < WORD
       case Go => !op.Idle? && !op.Evicting? && (op.Charged? ==> op.kind.ToHeap?)
       case EvictOne(s) => op.Evicting? && s < |w.table| && w.table[s].Holding?
       case StopEvicting => op.Evicting?
       case Fill(s) => op.Charged? && op.kind.ToTable? && s < |w.table| && w.table[s].Vacant?
       case NoRoom => op.Charged? && op.kind.ToTable?
       case TakeEntry(s) => op.Idle? && s < |w.table| && w.table[s].Holding?
       case DeleteHandle(h) => op.Idle? && h < |w.heap| && w.heap[h].Holding?
       case SetCapacity(c) => c < WORD
       case SetStrict(_) => true
       case Grow(_) => true
  }

  /** The next step of an operation already under way. */
  function GoOn(w: World, op: Op): Delta
    requires !op.Idle? && !op.Evicting? && (op.Charged? ==> op.kind.ToHeap?)
  {
    match op
    // load strict_capacity_limit, then capacity_ (strict) or usage_ (non-strict)
    case Began(k, c, crowded) => if w.strict then Only(Capped(k, c, crowded, w.capacity))
        else Only(SeenLoose(k, c, crowded, w.usage))
    case Capped(k, c, crowded, cap) => if c > cap then Only(Failed(k, c, true))
        else Only(Seen(k, c, crowded, cap, w.usage))
    case Seen(k, c, crowded, cap, seen) => Grab(w, op)
    case SeenLoose(k, c, crowded, seen) =>
      var need :=
        if Wrap64(seen + c) <= w.capacity || c > seen then 0
        else if seen > w.capacity then Wrap64(c + Min(w.capacity / 1024, c) + 1) else c;
      var request := if crowded && need == 0 then 1 else need;
      if request > 0 then Only(Evicting(Job(k, c, crowded, false, need, 0, 0, 0)))
      else Only(Settling(Job(k, c, crowded, false, need, 0, 0, 0)))
    case Settling(job) => Settle(job)
    case Failed(k, c, strict) =>
      if k.ToHeap? then (if k.uncharged then Only(Standing(0)) else Only(Idle))
      else Counting(0, -1, if !strict && k.keep then Forced(c) else Idle)
    case Forced(c) => Counting(c, 0, Standing(c))
    case Charged(k, c) => Only(Standing(c))
    case NotInserted(keep, c) => Counting(0, -1, if keep then Standing(c) else Refunding(c))
    case Refunding(c) => Counting(0 - c, 0, Idle)
    case Standing(c) => Delta(0, 0, c, NewInHeap, Holding(c), Idle)
    case Reclaiming(c) => Counting(0, -1, Returning(c))
    case Deleting(c) => Delta(0, 0, 0 - c, Nowhere, Vacant, Returning(c))
    case Returning(c) => Counting(0 - c, 0, Idle)
  }

  /** One turn of the strict loop: no change needed, or a CAS that succeeds or reloads usage_. */
  function Grab(w: World, op: Op): Delta
    requires op.Seen?
  {
    var sum := Wrap64(op.seen + op.charge);
    var wanted := Min(op.cap, sum);
    if wanted != op.seen && w.usage != op.seen then Only(Seen(op.kind, op.charge, op.crowded, op.cap, w.usage))
    else
      var need := Wrap64(op.seen + op.charge - wanted);
      var next :=
        if need > 0 || op.crowded then Evicting(Job(op.kind, op.charge, op.crowded, true, need, wanted - op.seen, 0, 0))
        else Charged(op.kind, op.charge);
      Counting(wanted - op.seen, 0, next)
  }

  /** The counter updates after an eviction run: first occupancy_, in the step that stops the run, then usage_. */
  function Settle(j: Job): Delta {
    if !j.strict then Counting(j.charge - j.freed, 0, Charged(j.kind, j.charge))
    else if j.freed > j.need then Counting(j.need - j.freed, 0, Charged(j.kind, j.charge))
    else if j.freed < j.need || (j.crowded && j.count == 0) then
      Counting(0 - j.freed - j.grabbed, 0, Failed(j.kind, j.charge, true))
    else Only(Charged(j.kind, j.charge))
  }

  function Plan(w: World, me: nat, a: Action): Delta
    requires Enabled(w, me, a)
  {
    var op := w.ops[me];
    match a
    case StartInsert(c, keep) => Counting(0, 1, Began(ToTable(keep), c, w.occupancy + 1 > w.limit))
    case StartStandalone(c, uncharged) => Only(Began(ToHeap(uncharged), c, false))
    case Go => GoOn(w, op)
    case EvictOne(s) =>
      var freed := Wrap64(op.job.freed + w.table[s].charge);
      Delta(0, 0, 0, InTable(s), Vacant, Evicting(op.job.(freed := freed, count := op.job.count + 1)))
    case StopEvicting =>
      if !op.job.strict && op.job.crowded && op.job.count == 0 then Only(Failed(op.job.kind, op.job.charge, false))
      else Counting(0, 0 - op.job.count, Settling(op.job))
    case Fill(s) => Delta(0, 0, 0, InTable(s), Holding(op.charge), Idle)
    case NoRoom => Only(NotInserted(op.kind.keep, op.charge))
    case TakeEntry(s) => Delta(0, 0, 0, InTable(s), Vacant, Reclaiming(w.table[s].charge))
    case DeleteHandle(h) => Delta(0, 0, 0, InHeap(h), Vacant, Deleting(w.heap[h].charge))
    case SetCapacity(_) => Only(op)
    case SetStrict(_) => Only(op)
    case Grow(m) => Counting(m, 0, op)
  }

  function Next(w: World, me: nat, a: Action): World
    requires Enabled(w, me, a)
  {
    var d := Plan(w, me, a);
    World(Wrap64(w.usage + d.usage), Wrap64(w.occupancy + d.occupancy), Wrap64(w.standalone + d.standalone),
          if a.SetCapacity? then a.capacity else w.capacity, if a.SetStrict? then a.strict else w.strict, w.limit,
          w.metadata + (if a.Grow? then a.metadata else 0),
          if d.place.InTable? && d.place.slot < |w.table| then w.table[d.place.slot := d.spot] else w.table,
          if d.place.InHeap? && d.place.h < |w.heap| then w.heap[d.place.h := d.spot]
          else if d.place.NewInHeap? then w.heap + [d.spot] else w.heap,
          w.ops[me := d.op])
  }

  // ---------------------------------------------------------------------------------------
  // What the counters should add up to

  ghost function Sum<T>(f: T -> int, s: seq<T>): int {
    if s == [] then 0 else f(s[0]) + Sum(f, s[1..])
  }

  lemma {:induction false} SumUpdate<T>(f: T -> int, s: seq<T>, i: nat, v: T)
    requires i < |s|
    ensures Sum(f, s[i := v]) == Sum(f, s) - f(s[i]) + f(v)
  {
    if i == 0 {
      assert s[i := v][1..] == s[1..];
    } else {
      assert s[i := v][1..] == s[1..][i - 1 := v];
      SumUpdate(f, s[1..], i - 1, v);
    }
  }

  lemma {:induction false} SumAppend<T>(f: T -> int, s: seq<T>, v: T)
    ensures Sum(f, s + [v]) == Sum(f, s) + f(v)
  {
    if s == [] {
      assert s + [v] == [v];
      assert [v][1..] == [];
    } else {
      assert (s + [v])[1..] == s[1..] + [v];
      SumAppend(f, s[1..], v);
    }
  }

  function ChargeIn(s: Spot): int { if s.Holding? then s.charge else 0 }

  function Occupied(s: Spot): int { if s.Holding? then 1 else 0 }

  /** The part of usage_ a thread has added for an entry not yet, or no longer, anywhere. */
  function UsageHeld(op: Op): int {
    match op
    case Evicting(j) => j.grabbed + j.freed
    case Settling(j) => j.grabbed + j.freed
    case Charged(_, c) => c
    case NotInserted(_, c) => c
    case Refunding(c) => c
    case Standing(c) => c
    case Reclaiming(c) => c
    case Deleting(c) => c
    case Returning(c) => c
    case _ => 0
  }

  function Pending(k: Kind): int { if k.ToTable? then 1 else 0 }

  function OccupancyHeld(op: Op): int {
    match op
    case Began(k, _, _) => Pending(k)
    case Capped(k, _, _, _) => Pending(k)
    case Seen(k, _, _, _, _) => Pending(k)
    case SeenLoose(k, _, _, _) => Pending(k)
    case Evicting(j) => Pending(j.kind) + j.count
    case Settling(j) => Pending(j.kind)
    case Failed(k, _, _) => Pending(k)
    case Charged(k, _) => Pending(k)
    case NotInserted(_, _) => 1
    case Reclaiming(_) => 1
    case _ => 0
  }

  function StandaloneHeld(op: Op): int { if op.Deleting? then op.charge else 0 }

  /** Charges in the table, in standalone entries and of the table itself, and in the threads' hands. */
  ghost function TrueUsage(w: World): int {
    Sum(ChargeIn, w.table) + Sum(ChargeIn, w.heap) + w.metadata + Sum(UsageHeld, w.ops)
  }

  ghost function TrueOccupancy(w: World): int { Sum(Occupied, w.table) + Sum(OccupancyHeld, w.ops) }

  ghost function TrueStandalone(w: World): int { Sum(ChargeIn, w.heap) + Sum(StandaloneHeld, w.ops) }

  /** Every counter is what it should be, up to wrap-around. */
  ghost predicate Conserved(w: World) {
    && w.usage == Wrap64(TrueUsage(w))
    && w.occupancy == Wrap64(TrueOccupancy(w))
    && w.standalone == Wrap64(TrueStandalone(w))
  }

  /** The strict path's bookkeeping: what was grabbed plus what must be evicted makes the charge. */
  predicate Tidy(op: Op) {
    op.Evicting? || op.Settling? ==>
      && (op.job.count == 0 ==> op.job.freed == 0)
      && if op.job.strict then Wrap64(op.job.need + op.job.grabbed - op.job.charge) == 0 else op.job.grabbed == 0
  }

  ghost predicate Inv(w: World) {
    Conserved(w) && forall t | 0 <= t < |w.ops| :: Tidy(w.ops[t])
  }

  /** How a step changes the true sums. */
  function Moved(w: World, d: Delta, f: Spot -> int): int {
    match d.place
    case Nowhere => 0
    case InTable(s) => if s < |w.table| then f(d.spot) - f(w.table[s]) else 0
    case InHeap(h) => if h < |w.heap| then f(d.spot) - f(w.heap[h]) else 0
    case NewInHeap => f(d.spot)
  }

  lemma SumsMove(w: World, me: nat, a: Action)
    requires Enabled(w, me, a)
    ensures var d, u := Plan(w, me, a), Next(w, me, a);
      && TrueUsage(u) == TrueUsage(w) + Moved(w, d,
          ChargeIn) + UsageHeld(d.op) - UsageHeld(w.ops[me]) + u.metadata - w.metadata
      && TrueOccupancy(u) == TrueOccupancy(w) + (if d.place.InTable? then Moved(w, d, Occupied) else 0)
                             + OccupancyHeld(d.op) - OccupancyHeld(w.ops[me])
      && TrueStandalone(u) == TrueStandalone(w) + (if d.place.InTable? then 0 else Moved(w, d, ChargeIn))
                              + StandaloneHeld(d.op) - StandaloneHeld(w.ops[me])
  {
    hide Plan, UsageHeld, OccupancyHeld, StandaloneHeld, ChargeIn, Occupied, Wrap64;
    var d := Plan(w, me, a);
    SumUpdate(UsageHeld, w.ops, me, d.op);
    SumUpdate(OccupancyHeld, w.ops, me, d.op);
    SumUpdate(StandaloneHeld, w.ops, me, d.op);
    match d.place
    case Nowhere =>
    case InTable(s) =>
      if s < |w.table| {
        SumUpdate(ChargeIn, w.table, s, d.spot);
        SumUpdate(Occupied, w.table, s, d.spot);
      }
    case InHeap(h) =>
      if h < |w.heap| {
        SumUpdate(ChargeIn, w.heap, h, d.spot);
      }
    case NewInHeap => SumAppend(ChargeIn, w.heap, d.spot);
  }

  /** A step adds to every counter what it changes about the true sum, up to wrap-around. */
  ghost predicate Balanced(w: World, op: Op, d: Delta, metadata: nat) {
    && Wrap64(Moved(w, d, ChargeIn) + UsageHeld(d.op) - UsageHeld(op) + metadata - d.usage) == 0
    && (if d.place.InTable? then Moved(w, d, Occupied) else 0) + OccupancyHeld(d.op) - OccupancyHeld(op) == d.occupancy
    && (if d.place.InTable? then 0
        else Moved(w, d, ChargeIn)) + StandaloneHeld(d.op) - StandaloneHeld(op) == d.standalone
    && Tidy(d.op)
  }

  lemma GrabBalances(w: World, op: Op)
    requires op.Seen?
    ensures Balanced(w, op, Grab(w, op), 0)
  {
  }

  lemma SettleBalances(w: World, j: Job)
    requires Tidy(Settling(j))
    ensures Balanced(w, Settling(j), Settle(j), 0)
  {
  }

  lemma GoBalances(w: World, op: Op)
    requires !op.Idle? && !op.Evicting? && (op.Charged? ==> op.kind.ToHeap?) && Tidy(op)
    ensures Balanced(w, op, GoOn(w, op), 0)
  {
    if op.Seen? {
      GrabBalances(w, op);
    } else if op.Settling? {
      SettleBalances(w, op.job);
    }
  }

  lemma EvictBalances(x: int)
    ensures Wrap64(Wrap64(x) - x) == 0
  {
  }

  lemma StepBalances(w: World, me: nat, a: Action)
    requires Enabled(w, me, a) && Tidy(w.ops[me])
    ensures Balanced(w, w.ops[me], Plan(w, me, a), if a.Grow? then a.metadata else 0)
  {
    hide GoOn;
    if a.Go? {
      hide Balanced;
      GoBalances(w, w.ops[me]);
    } else if a.EvictOne? {
      EvictBalances(w.ops[me].job.freed + w.table[a.slot].charge);
    }
  }

  lemma WrapFollows(x: int, d: int, y: int)
    requires Wrap64(y - x - d) == 0
    ensures Wrap64(Wrap64(x) + d) == Wrap64(y)
  {
  }

  lemma StepConserves(w: World, me: nat, a: Action)
    requires Inv(w) && Enabled(w, me, a)
    ensures Inv(Next(w, me, a))
  {
    hide Plan, UsageHeld, OccupancyHeld, StandaloneHeld, ChargeIn, Occupied, Wrap64, Moved, Tidy, TrueUsage,
        TrueOccupancy, TrueStandalone, Sum;
    var d, u := Plan(w, me, a), Next(w, me, a);
    SumsMove(w, me, a);
    StepBalances(w, me, a);
    WrapFollows(TrueUsage(w), d.usage, TrueUsage(u));
    WrapFollows(TrueOccupancy(w), d.occupancy, TrueOccupancy(u));
    WrapFollows(TrueStandalone(w), d.standalone, TrueStandalone(u));
  }

  // ---------------------------------------------------------------------------------------
  // Whole runs

  datatype Event = Event(me: nat, action: Action)

  ghost predicate Init(w: World) {
    && (forall t | 0 <= t < |w.ops| :: w.ops[t].Idle?)
    && (forall s | 0 <= s < |w.table| :: w.table[s].Vacant?)
    && w.heap == [] && w.metadata < WORD && w.usage == w.metadata && w.occupancy == w.standalone == 0
  }

  ghost predicate IsRun(run: seq<World>, events: seq<Event>) {
    && |run| == |events| + 1 && Init(run[0])
    && forall i | 0 <= i < |events| ::
        Enabled(run[i], events[i].me, events[i].action) && run[i + 1] == Next(run[i], events[i].me, events[i].action)
  }

  lemma {:induction false} SumZero<T>(f: T -> int, s: seq<T>)
    requires forall i | 0 <= i < |s| :: f(s[i]) == 0
    ensures Sum(f, s) == 0
  {
    if s != [] {
      SumZero(f, s[1..]);
    }
  }

  lemma SumsAtRest(w: World)
    requires forall t | 0 <= t < |w.ops| :: w.ops[t].Idle?
    ensures Sum(UsageHeld, w.ops) == Sum(OccupancyHeld, w.ops) == Sum(StandaloneHeld, w.ops) == Sum(Entitled,
        w.ops) == 0
  {
    SumZero(UsageHeld, w.ops);
    SumZero(OccupancyHeld, w.ops);
    SumZero(StandaloneHeld, w.ops);
    SumZero(Entitled, w.ops);
  }

  lemma InitSums(w: World)
    requires Init(w)
    ensures TrueUsage(w) == w.metadata && TrueOccupancy(w) == 0 && TrueStandalone(w) == 0
    ensures Sum(Occupied, w.table) == 0 == Sum(Entitled, w.ops)
  {
    SumsAtRest(w);
    SumZero(ChargeIn, w.table);
    SumZero(Occupied, w.table);
  }

  /** Every counter is conserved at every moment of every run. */
  lemma {:induction false} EveryMoment(run: seq<World>, events: seq<Event>, i: nat)
    requires IsRun(run, events) && i < |run|
    ensures Inv(run[i])
  {
    if i == 0 {
      InitSums(run[0]);
    } else {
      EveryMoment(run, events, i - 1);
      StepConserves(run[i - 1], events[i - 1].me, events[i - 1].action);
    }
  }

  /** When no operation is under way the counters tell exactly what is there. */
  lemma AtRest(run: seq<World>, events: seq<Event>, i: nat)
    requires IsRun(run, events) && i < |run|
    requires forall t | 0 <= t < |run[i].ops| :: run[i].ops[t].Idle?
    ensures var w := run[i];
      && w.usage == Wrap64(Sum(ChargeIn, w.table) + Sum(ChargeIn, w.heap) + w.metadata)
      && w.occupancy == Wrap64(Sum(Occupied, w.table))
      && w.standalone == Wrap64(Sum(ChargeIn, w.heap))
  {
    EveryMoment(run, events, i);
    SumsAtRest(run[i]);
  }

  // ---------------------------------------------------------------------------------------
  // The occupancy limit

  /** Whether a thread may still fill a slot: it was within the limit, or has made room. */
  function Entitled(op: Op): int {
    match op
    case Began(k, _, crowded) => if crowded then 0 else Pending(k)
    case Capped(k, _, crowded, _) => if crowded then 0 else Pending(k)
    case Seen(k, _, crowded, _, _) => if crowded then 0 else Pending(k)
    case SeenLoose(k, _, crowded, _) => if crowded then 0 else Pending(k)
    case Evicting(j) => if j.crowded && j.count == 0 then 0 else Pending(j.kind)
    case Settling(j) => if j.crowded && j.count == 0 then 0 else Pending(j.kind)
    case Charged(k, _) => Pending(k)
    case _ => 0
  }

  /** A run that did not need to evict, or failed to, does not reach the settling step of the loose path. */
  predicate Roomy(op: Op) {
    op.Settling? && !op.job.strict ==> !op.job.crowded || op.job.count > 0
  }

  ghost predicate Limited(w: World) {
    && Sum(Occupied, w.table) + Sum(Entitled, w.ops) <= w.limit
    && forall t | 0 <= t < |w.ops| :: Roomy(w.ops[t])
  }

  lemma {:induction false} SumLeq<T>(f: T -> int, g: T -> int, s: seq<T>)
    requires forall i | 0 <= i < |s| :: f(s[i]) <= g(s[i])
    ensures Sum(f, s) <= Sum(g, s)
  {
    if s != [] {
      SumLeq(f, g, s[1..]);
    }
  }

  /** No step but an insert within the limit adds to the entitlements and populated slots. */
  lemma EntitledStep(w: World, me: nat, a: Action)
    requires Enabled(w, me, a) && Tidy(w.ops[me]) && Roomy(w.ops[me])
    ensures var d := Plan(w, me, a);
      && Roomy(d.op)
      && (if d.place.InTable? then Moved(w, d, Occupied) else 0) + Entitled(d.op) - Entitled(w.ops[me])
         <= if a.StartInsert? && w.occupancy + 1 <= w.limit then 1 else 0
  {
    hide Grab, Settle;
    if a.Go? && w.ops[me].Seen? {
      GrabEntitled(w, w.ops[me]);
    } else if a.Go? && w.ops[me].Settling? {
      SettleEntitled(w.ops[me].job);
    }
  }

  lemma GrabEntitled(w: World, op: Op)
    requires op.Seen?
    ensures var d := Grab(w, op); Roomy(d.op) && d.place.Nowhere? && Entitled(d.op) == Entitled(op)
  {
  }

  lemma SettleEntitled(j: Job)
    requires Tidy(Settling(j)) && Roomy(Settling(j))
    ensures var d := Settle(j); Roomy(d.op) && d.place.Nowhere? && Entitled(d.op) <= Entitled(Settling(j))
  {
  }

  lemma LimitStep(w: World, me: nat, a: Action)
    requires Inv(w) && Limited(w) && Enabled(w, me, a) && TrueOccupancy(w) < WORD
    ensures Limited(Next(w, me, a))
  {
    hide Plan, UsageHeld, OccupancyHeld, StandaloneHeld, ChargeIn, Occupied, Tidy, TrueUsage, TrueStandalone, Sum,
        Entitled, Roomy;
    var d := Plan(w, me, a);
    EntitledStep(w, me, a);
    SumUpdate(Entitled, w.ops, me, d.op);
    if d.place.InTable? && d.place.slot < |w.table| {
      SumUpdate(Occupied, w.table, d.place.slot, d.spot);
    }
    EntitledHeld(w);
  }

  /** Every entitlement is counted in occupancy_. */
  lemma EntitledHeld(w: World)
    requires Inv(w) && TrueOccupancy(w) < WORD
    ensures Sum(Occupied, w.table) + Sum(Entitled, w.ops) <= w.occupancy
  {
    SumLeq(Entitled, OccupancyHeld, w.ops);
    SumZero(Nothing, w.table);
    SumLeq(Nothing, Occupied, w.table);
    SumZero(NoOp, w.ops);
    SumLeq(NoOp, OccupancyHeld, w.ops);
  }

  function Nothing(s: Spot): int { 0 }

  function NoOp(op: Op): int { 0 }

  /** In every interleaving, at most `limit` slots are populated. */
  lemma {:induction false} NeverOverfull(run: seq<World>, events: seq<Event>, i: nat)
    requires IsRun(run, events) && i < |run|
    requires forall j | 0 <= j < i :: TrueOccupancy(run[j]) < WORD
    ensures Limited(run[i]) && Sum(Occupied, run[i].table) <= run[i].limit
  {
    SumZero(NoOp, run[i].ops);
    SumLeq(NoOp, Entitled, run[i].ops);
    if i == 0 {
      InitSums(run[0]);
    } else {
      NeverOverfull(run, events, i - 1);
      EveryMoment(run, events, i - 1);
      LimitStep(run[i - 1], events[i - 1].me, events[i - 1].action);
    }
  }

  // ---------------------------------------------------------------------------------------
  // The strict capacity limit, with capacity_ unchanged and no table growth

  predicate Steady(a: Action) { !a.SetCapacity? && !a.SetStrict? && !a.Grow? }

  /** On the strict path nothing wraps: a thread grabs what is available and owes exactly the rest. */
  predicate Strict(op: Op, cap: nat) {
    && 0 <= UsageHeld(op)
    && match op
       case Capped(_, _, _, c) => c == cap
       case Seen(_, charge, _, c, seen) => c == cap && charge <= cap && seen <= cap
       case SeenLoose(_, _, _, _) => false
       case Evicting(j) => j.strict && j.grabbed >= 0 && j.need + j.grabbed == j.charge
       case Settling(j) => j.strict && j.grabbed >= 0 && j.need + j.grabbed == j.charge
       case Failed(_, _, strict) => strict
       case Forced(_) => false
       case _ => true
  }

  ghost predicate StrictInv(w: World) {
    && w.strict && 2 * w.capacity < WORD
    && w.usage == TrueUsage(w) && w.usage <= w.capacity
    && forall t | 0 <= t < |w.ops| :: Strict(w.ops[t], w.capacity)
  }

  lemma {:induction false} SumAtLeast<T>(f: T -> int, s: seq<T>, i: nat)
    requires i < |s| && forall k | 0 <= k < |s| :: f(s[k]) >= 0
    ensures 0 <= f(s[i]) <= Sum(f, s)
  {
    if i == 0 {
      SumNatural(f, s[1..]);
    } else {
      SumAtLeast(f, s[1..], i - 1);
    }
  }

  lemma {:induction false} SumNatural<T>(f: T -> int, s: seq<T>)
    requires forall k | 0 <= k < |s| :: f(s[k]) >= 0
    ensures 0 <= Sum(f, s)
  {
    if s != [] {
      SumNatural(f, s[1..]);
    }
  }

  lemma StrictNatural(w: World, cap: nat)
    requires forall t | 0 <= t < |w.ops| :: Strict(w.ops[t], cap)
    ensures 0 <= Sum(ChargeIn, w.table) && 0 <= Sum(ChargeIn, w.heap) && 0 <= Sum(UsageHeld, w.ops) && TrueUsage(w) >= 0
  {
    SumNatural(ChargeIn, w.table);
    SumNatural(ChargeIn, w.heap);
    SumNatural(UsageHeld, w.ops);
  }

  /** The usage counter moves exactly with the true sum, and up only to the capacity. */
  ghost predicate Exact(w: World, op: Op, d: Delta) {
    && Moved(w, d, ChargeIn) + UsageHeld(d.op) - UsageHeld(op) == d.usage
    && w.usage + d.usage <= w.capacity
    && Strict(d.op, w.capacity)
  }

  lemma GrabExact(w: World, op: Op)
    requires w.usage <= w.capacity && 2 * w.capacity < WORD && op.Seen? && Strict(op, w.capacity)
    ensures Exact(w, op, Grab(w, op))
  {
  }

  lemma SettleExact(w: World, j: Job)
    requires w.usage <= w.capacity && Strict(Settling(j), w.capacity) && Tidy(Settling(j))
    ensures Exact(w, Settling(j), Settle(j))
  {
  }

  lemma EvictExact(w: World, me: nat, s: nat)
    requires StrictInv(w) && Enabled(w, me, EvictOne(s))
    ensures Exact(w, w.ops[me], Plan(w, me, EvictOne(s)))
  {
    hide Sum;
    SumAtLeast(ChargeIn, w.table, s);
    SumAtLeast(UsageHeld, w.ops, me);
    SumNatural(ChargeIn, w.heap);
    assert w.ops[me].job.freed + w.table[s].charge <= w.usage;
  }

  lemma StepExact(w: World, me: nat, a: Action)
    requires StrictInv(w) && Enabled(w, me, a) && Tidy(w.ops[me]) && Steady(a)
    ensures Exact(w, w.ops[me], Plan(w, me, a))
  {
    hide Grab, Settle, TrueUsage, Sum;
    var op := w.ops[me];
    if a.EvictOne? {
      hide Exact;
      EvictExact(w, me, a.slot);
    } else if a.Go? && op.Seen? {
      hide Exact;
      GrabExact(w, op);
    } else if a.Go? && op.Settling? {
      hide Exact;
      SettleExact(w, op.job);
    }
  }

  lemma StrictStep(w: World, me: nat, a: Action)
    requires StrictInv(w) && Enabled(w, me, a) && Tidy(w.ops[me]) && Steady(a)
    ensures StrictInv(Next(w, me, a)) && Next(w, me, a).capacity == w.capacity
  {
    hide Plan, UsageHeld, ChargeIn, Occupied, OccupancyHeld, StandaloneHeld, TrueUsage, TrueOccupancy, TrueStandalone,
        Sum, Moved, Strict;
    var u := Next(w, me, a);
    StepExact(w, me, a);
    SumsMove(w, me, a);
    StrictNatural(u, w.capacity);
  }

  /** No thread is between loading capacity_ and using it. */
  ghost predicate Calm(w: World) {
    forall t | 0 <= t < |w.ops| :: !w.ops[t].Capped? && !w.ops[t].Seen?
  }

  /** While no thread is about to use the old capacity, changing it keeps the counter exact and bounded
      exactly if the new one covers what is in use. */
  lemma CapacityChange(w: World, me: nat, c: nat)
    requires StrictInv(w) && Enabled(w, me, SetCapacity(c)) && Calm(w)
    ensures StrictInv(Next(w, me, SetCapacity(c))) <==> w.usage <= c && 2 * c < WORD
  {
    hide Sum, UsageHeld;
    var u := Next(w, me, SetCapacity(c));
    assert w.ops[me := w.ops[me]] == w.ops;
    assert u.ops == w.ops && u.usage == w.usage;
    forall t | 0 <= t < |u.ops| ensures Strict(u.ops[t], c) {
      assert Strict(w.ops[t], w.capacity);
    }
  }

  /** Steps that a run may consist of: none that changes the capacity while a thread is about to use the
      old one, or to less than what is in use. */
  ghost predicate Allowed(w: World, a: Action) {
    Steady(a) || (a.SetCapacity? && Calm(w) && w.usage <= a.capacity && 2 * a.capacity < WORD)
  }

  /** With a strict limit and a capacity that covers the table's own metadata, unchanged or changed
      with care, usage_ is exact and within the capacity at every moment of every interleaving. */
  lemma {:induction false} WithinCapacity(run: seq<World>, events: seq<Event>, i: nat)
    requires IsRun(run, events) && i < |run|
    requires run[0].strict && run[0].metadata <= run[0].capacity && 2 * run[0].capacity < WORD
    requires forall j | 0 <= j < |events| :: Allowed(run[j], events[j].action)
    ensures run[i].usage <= run[i].capacity && StrictInv(run[i])
    ensures (forall j | 0 <= j < |events| :: Steady(events[j].action)) ==> run[i].capacity == run[0].capacity
  {
    if i == 0 {
      InitSums(run[0]);
    } else {
      WithinCapacity(run, events, i - 1);
      EveryMoment(run, events, i - 1);
      assert Allowed(run[i - 1], events[i - 1].action);
      if Steady(events[i - 1].action) {
        StrictStep(run[i - 1], events[i - 1].me, events[i - 1].action);
      } else {
        CapacityChange(run[i - 1], events[i - 1].me, events[i - 1].action.capacity);
      }
    }
  }

  // ---------------------------------------------------------------------------------------
  // Runs in which the capacity is changed regardless

  /** A run between two states in which the capacity is set to `c` only. */
  ghost predicate Played(run: seq<World>, e: seq<Event>, first: World, last: World, c: nat) {
    && IsRun(run, e) && run[0] == first && run[|e|] == last
    && forall j | 0 <= j < |e| :: Steady(e[j].action) || e[j].action == SetCapacity(c)
  }

  lemma Play(run: seq<World>, e: seq<Event>, first: World, last: World, c: nat, me: nat, a: Action, next: World)
    returns (run': seq<World>, e': seq<Event>)
    requires Played(run, e, first, last, c) && Enabled(last, me, a) && next == Next(last, me, a)
    requires Steady(a) || a == SetCapacity(c)
    ensures Played(run', e', first, next, c)
  {
    hide Enabled, Next, Init;
    run', e' := run + [next], e + [Event(me, a)];
    forall i | 0 <= i < |e'|
      ensures Enabled(run'[i], e'[i].me, e'[i].action) && run'[i + 1] == Next(run'[i], e'[i].me, e'[i].action)
    {
      if i < |e| {
        assert run'[i] == run[i] && run'[i + 1] == run[i + 1] && e'[i] == e[i];
      }
    }
  }

  const EMPTY_WORLD := World(0, 0, 0, 10, true, 1, 0, [Vacant], [], [Idle, Idle])

  lemma NotStarted(c: nat) returns (run: seq<World>, e: seq<Event>)
    ensures Played(run, e, EMPTY_WORLD, EMPTY_WORLD, c)
  {
    run, e := [EMPTY_WORLD], [];
  }

  /** A strict world with one empty slot, in which thread 1 has nothing to do. */
  predicate OneSlot(w: World) {
    && w.usage == w.occupancy == w.standalone == w.metadata == 0 && w.strict && w.limit == 1
    && w.table == [Vacant] && w.heap == [] && |w.ops| == 2 && w.ops[1].Idle? && 0 < 2 * w.capacity < WORD
  }

  function Doing(w: World, op: Op): World
    requires |w.ops| == 2
  {
    w.(occupancy := 1, ops := w.ops[1 := op])
  }

  /** Thread 1 starts an insert that takes up the whole capacity, up to its look at usage_. */
  lemma LookAtUsage(run: seq<World>, e: seq<Event>, first: World, w: World, c: nat, keep: bool)
    returns (run': seq<World>, e': seq<Event>)
    requires Played(run, e, first, w, c) && OneSlot(w)
    ensures Played(run', e', first, Doing(w, Seen(ToTable(keep), w.capacity, false, w.capacity, 0)), c)
  {
    hide Played, Wrap64;
    var k, n := ToTable(keep), w.capacity;
    run', e' := Play(run, e, first, w, c, 1, StartInsert(n, keep), Doing(w, Began(k, n, false)));
    var w1 := Doing(w, Began(k, n, false));
    assert w1.ops[1 := Capped(k, n, false, n)] == w.ops[1 := Capped(k, n, false, n)];
    run', e' := Play(run', e', first, w1, c, 1, Go, Doing(w, Capped(k, n, false, n)));
    var w2 := Doing(w, Capped(k, n, false, n));
    assert w2.ops[1 := Seen(k, n, false, n, 0)] == w.ops[1 := Seen(k, n, false, n, 0)];
    run', e' := Play(run', e', first, w2, c, 1, Go, Doing(w, Seen(k, n, false, n, 0)));
  }

  lemma GrabAll(w: World, keep: bool)
    requires OneSlot(w)
    ensures var k, n := ToTable(keep), w.capacity;
      Next(Doing(w, Seen(k, n, false, n, 0)), 1, Go) == Doing(w, Charged(k, n)).(usage := n)
  {
    hide Wrap64;
    var k, n := ToTable(keep), w.capacity;
    var w3 := Doing(w, Seen(k, n, false, n, 0));
    assert Plan(w3, 1, Go) == Counting(n, 0, Charged(k, n));
    assert w3.ops[1 := Charged(k, n)] == w.ops[1 := Charged(k, n)];
  }

  lemma FillSlot(w: World, keep: bool)
    requires OneSlot(w)
    ensures var k, n := ToTable(keep), w.capacity;
      Next(Doing(w, Charged(k, n)).(usage := n), 1, Fill(0)) == w.(usage := n, occupancy := 1, table := [Holding(n)])
  {
    hide Wrap64;
    var k, n := ToTable(keep), w.capacity;
    var w4 := Doing(w, Charged(k, n)).(usage := n);
    assert w4.ops[1 := Idle] == w.ops && w4.table[0 := Holding(n)] == [Holding(n)];
  }

  /** Thread 1 inserts an entry that takes up the whole capacity. */
  lemma InsertAll(run: seq<World>, e: seq<Event>, first: World, w: World, c: nat, keep: bool)
    returns (run': seq<World>, e': seq<Event>)
    requires Played(run, e, first, w, c) && OneSlot(w)
    ensures Played(run', e', first, w.(usage := w.capacity, occupancy := 1, table := [Holding(w.capacity)]), c)
  {
    hide Played, Wrap64, Next;
    var k, n := ToTable(keep), w.capacity;
    run', e' := LookAtUsage(run, e, first, w, c, keep);
    GrabAll(w, keep);
    FillSlot(w, keep);
    var w3, w4 := Doing(w, Seen(k, n, false, n, 0)), Doing(w, Charged(k, n)).(usage := n);
    run', e' := Play(run', e', first, w3, c, 1, Go, w4);
    run', e' := Play(run', e', first, w4, c, 1, Fill(0), w.(usage := n, occupancy := 1, table := [Holding(n)]));
  }

  const FULL := World(10, 1, 0, 10, true, 1, 0, [Holding(10)], [], [Idle, Idle])

  /** A run to a table filled up to its capacity. */
  lemma FillUp(c: nat) returns (run: seq<World>, e: seq<Event>)
    ensures Played(run, e, EMPTY_WORLD, FULL, c)
  {
    hide Played;
    run, e := NotStarted(c);
    run, e := InsertAll(run, e, EMPTY_WORLD, EMPTY_WORLD, c, true);
  }

  /** An entry leaves the table, and then usage_ is reduced by its charge. */
  lemma TakeOut(run: seq<World>, e: seq<Event>, first: World, w: World, c: nat)
    returns (run': seq<World>, e': seq<Event>)
    requires Played(run, e, first, w, c) && |w.ops| == 2 && w.ops[1].Idle? && |w.table| == 1 && w.table[0].Holding?
    requires w.usage < WORD && w.occupancy == 1 && w.standalone == 0
    ensures Played(run', e', first,
        w.(usage := Wrap64(w.usage - w.table[0].charge), occupancy := 0, table := [Vacant]), c)
  {
    hide Played, Wrap64;
    var charge := w.table[0].charge;
    var w1 := w.(table := [Vacant], ops := w.ops[1 := Reclaiming(charge)]);
    run', e' := Play(run, e, first, w, c, 1, TakeEntry(0), w1);
    var w2 := w1.(occupancy := 0, ops := w.ops[1 := Returning(charge)]);
    run', e' := Play(run', e', first, w1, c, 1, Go, w2);
    assert w.ops[1 := Returning(charge)][1 := Idle] == w.ops;
    run', e' := Play(run', e', first, w2, c, 1, Go,
        w.(usage := Wrap64(w.usage - charge), occupancy := 0, table := [Vacant]));
  }

  const SHRUNK := World(0, 1, 0, 0, true, 1, 0, [Holding(10)], [],
                        [Evicting(Job(ToHeap(false), 0, false, true, 10, -10, 0, 0)), Idle])

  predicate Sized(w: World) { w.usage < WORD && w.occupancy < WORD && w.standalone < WORD && |w.ops| == 2 }

  lemma ChangeCapacity(run: seq<World>, e: seq<Event>, first: World, w: World, c: nat)
    returns (run': seq<World>, e': seq<Event>)
    requires Played(run, e, first, w, c) && Sized(w) && c < WORD
    ensures Played(run', e', first, w.(capacity := c), c)
  {
    hide Played, Wrap64;
    assert w.ops[1 := w.ops[1]] == w.ops;
    run', e' := Play(run, e, first, w, c, 1, SetCapacity(c), w.(capacity := c));
  }

  function Other(w: World, op: Op): World
    requires |w.ops| == 2
  {
    w.(ops := w.ops[0 := op])
  }

  /** Thread 0 starts to create a standalone entry and loads the capacity. */
  lemma LoadCapacity(run: seq<World>, e: seq<Event>, first: World, w: World, c: nat, charge: nat)
    returns (run': seq<World>, e': seq<Event>)
    requires Played(run, e, first, w, c) && Sized(w) && w.strict && w.ops[0].Idle? && charge < WORD
    ensures Played(run', e', first, Other(w, Capped(ToHeap(false), charge, false, w.capacity)), c)
  {
    hide Played, Wrap64;
    var w1 := Other(w, Began(ToHeap(false), charge, false));
    var w2 := Other(w, Capped(ToHeap(false), charge, false, w.capacity));
    run', e' := Play(run, e, first, w, c, 0, StartStandalone(charge, false), w1);
    assert w1.ops[0 := w2.ops[0]] == w2.ops;
    run', e' := Play(run', e', first, w1, c, 0, Go, w2);
  }

  /** It looks at a usage above that capacity, and takes usage_ back down to it. */
  lemma CutUsage(run: seq<World>, e: seq<Event>, first: World, w: World, c: nat, charge: nat, cap: nat)
    returns (run': seq<World>, e': seq<Event>)
    requires Played(run, e, first, w, c) && Sized(w) && w.ops[0] == Capped(ToHeap(false), charge, false, cap)
    requires charge <= cap < w.usage && w.usage + charge < WORD
    ensures var job := Job(ToHeap(false), charge, false, true, w.usage + charge - cap, cap - w.usage, 0, 0);
      Played(run', e', first, Other(w, Evicting(job)).(usage := cap), c)
  {
    hide Played, Wrap64;
    var w1 := Other(w, Seen(ToHeap(false), charge, false, cap, w.usage));
    run', e' := Play(run, e, first, w, c, 0, Go, w1);
    var job := Job(ToHeap(false), charge, false, true, w.usage + charge - cap, cap - w.usage, 0, 0);
    var w2 := Other(w, Evicting(job)).(usage := cap);
    assert w1.ops[0 := Evicting(job)] == w2.ops;
    assert Plan(w1, 0, Go) == Counting(cap - w.usage, 0, Evicting(job));
    run', e' := Play(run', e', first, w1, c, 0, Go, w2);
  }

  lemma ShrinkFull() returns (run: seq<World>, e: seq<Event>)
    ensures Played(run, e, EMPTY_WORLD, SHRUNK, 0)
  {
    hide Played;
    run, e := FillUp(0);
    var w1 := FULL.(capacity := 0);
    run, e := ChangeCapacity(run, e, EMPTY_WORLD, FULL, 0);
    run, e := LoadCapacity(run, e, EMPTY_WORLD, w1, 0, 0);
    run, e := CutUsage(run, e, EMPTY_WORLD, Other(w1, Capped(ToHeap(false), 0, false, 0)), 0, 0, 0);
    assert Other(Other(w1, Capped(ToHeap(false), 0, false, 0)), SHRUNK.ops[0]).ops == SHRUNK.ops;
  }

  /** Lowering capacity_ while an entry is in use breaks this: an insert writes the new capacity into
      usage_ before evicting, and a release in between takes the counter below zero. */
  lemma LoweredCapacity() returns (run: seq<World>, e: seq<Event>)
    ensures IsRun(run, e) && run[0].strict && run[0].metadata <= run[0].capacity && 2 * run[0].capacity < WORD
    ensures forall j | 0 <= j < |e| :: Steady(e[j].action) || e[j].action == SetCapacity(0)
    ensures run[|e|].capacity == 0 && run[|e|].usage == WORD - 10
  {
    hide IsRun;
    run, e := ShrinkFull();
    run, e := TakeOut(run, e, EMPTY_WORLD, SHRUNK, 0);
  }

  const TAKEN_BACK := World(10, 1, 0, 20, true, 1, 0, [Holding(20)], [],
                            [Evicting(Job(ToHeap(false), 5, false, true, 15, -10, 0, 0)), Idle])

  lemma TakeBack() returns (run: seq<World>, e: seq<Event>)
    ensures Played(run, e, EMPTY_WORLD, TAKEN_BACK, 20)
  {
    hide Played;
    run, e := NotStarted(20);
    run, e := LoadCapacity(run, e, EMPTY_WORLD, EMPTY_WORLD, 20, 5);
    var w1 := Other(EMPTY_WORLD, Capped(ToHeap(false), 5, false, 10));
    run, e := ChangeCapacity(run, e, EMPTY_WORLD, w1, 20);
    var w2 := w1.(capacity := 20);
    run, e := InsertAll(run, e, EMPTY_WORLD, w2, 20, false);
    var w3 := w2.(usage := 20, occupancy := 1, table := [Holding(20)]);
    run, e := CutUsage(run, e, EMPTY_WORLD, w3, 20, 5, 10);
    assert Other(w3, TAKEN_BACK.ops[0]).ops == TAKEN_BACK.ops;
  }

  /** Raising it breaks this too: an operation that loaded the old capacity takes usage_ back down to it
      although more is in use by then, and a release takes the counter below zero. */
  lemma RaisedCapacity() returns (run: seq<World>, e: seq<Event>)
    ensures IsRun(run, e) && run[0].strict && run[0].metadata <= run[0].capacity && 2 * run[0].capacity < WORD
    ensures forall j | 0 <= j < |e| :: Steady(e[j].action) || e[j].action == SetCapacity(20)
    ensures run[0].capacity == 10 && run[|e|].capacity == 20 && run[|e|].usage == WORD - 10
  {
    hide IsRun;
    run, e := TakeBack();
    run, e := TakeOut(run, e, EMPTY_WORLD, TAKEN_BACK, 20);
  }
}
