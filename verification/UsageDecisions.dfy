/** What a thread that charges for a new entry decides when no other thread interferes: when it is granted
    the space, when it has to evict first, when it is refused, and what usage_ is afterwards. */
module UsageDecisions {
  import opened Arith
  import opened UsageAccounting

  /** The thread makes its next steps, up to an eviction run or the insertion. */
  function Goes(w: World, me: nat, n: nat): (after: World)
    ensures |after.ops| == |w.ops|
    decreases n
  {
    if n == 0 || !Enabled(w, me, Go) then w else Goes(Next(w, me, Go), me, n - 1)
  }

  function Doing(w: World, me: nat, op: Op): World
    requires me < |w.ops|
  {
    w.(ops := w.ops[me := op])
  }

  /** Sizes far from the width of the counters. */
  ghost predicate Sane(w: World, c: nat) {
    w.usage + c + c < WORD && w.capacity < WORD && w.capacity + w.usage + c < WORD && w.occupancy < WORD
        && w.standalone < WORD
  }

  lemma OneGo(w: World, me: nat, n: nat)
    requires Enabled(w, me, Go) && n > 0
    ensures Goes(w, me, n) == Goes(Next(w, me, Go), me, n - 1)
  {
  }

  /** A step that only moves the thread on. */
  lemma GoOnly(w: World, me: nat, op: Op, c: nat)
    requires Enabled(w, me, Go) && Sane(w, c) && GoOn(w, w.ops[me]) == Only(op)
    ensures Next(w, me, Go) == Doing(w, me, op)
  {
  }

  /** A step that adds to usage_. */
  lemma GoCounting(w: World, me: nat, op: Op, d: int, c: nat)
    requires Enabled(w, me, Go) && Sane(w, c) && GoOn(w, w.ops[me]) == Counting(d, 0, op)
    ensures Next(w, me, Go) == Doing(w, me, op).(usage := Wrap64(w.usage + d))
  {
  }

  /** An insertion counts itself in first, and must evict something if that makes the table too full. */
  lemma InsertBegins(w: World, me: nat, c: nat, keep: bool)
    requires Enabled(w, me, StartInsert(c, keep)) && w.occupancy + 1 < WORD && w.usage < WORD && w.standalone < WORD
    ensures Next(w, me, StartInsert(c, keep)) ==
        Doing(w, me, Began(ToTable(keep), c, w.occupancy >= w.limit)).(occupancy := w.occupancy + 1)
  {
  }

  /** Strict limit: an entry larger than the capacity is refused at once. */
  lemma StrictTooLarge(w: World, me: nat, k: Kind, c: nat, crowded: bool)
    requires me < |w.ops| && w.ops[me] == Began(k, c, crowded) && w.strict && Sane(w, c) && c > w.capacity
    ensures Goes(w, me, 2) == Doing(w, me, Failed(k, c, true))
  {
    hide Next, Wrap64;
    var w1 := Doing(w, me, Capped(k, c, crowded, w.capacity));
    GoOnly(w, me, w1.ops[me], c);
    GoOnly(w1, me, Failed(k, c, true), c);
    OneGo(w, me, 2);
    OneGo(w1, me, 1);
  }

  /** Strict limit: any other entry takes what is left of the capacity; if that is all it needs, and the
      table is not too full, it is granted without evicting anything. */
  lemma StrictGrabs(w: World, me: nat, k: Kind, c: nat, crowded: bool)
    requires me < |w.ops| && w.ops[me] == Began(k, c, crowded) && w.strict && Sane(w, c) && c <= w.capacity
    ensures var usage := Min(w.capacity, w.usage + c);
      var need := w.usage + c - usage;
      Goes(w, me, 3) == Doing(w, me, if need > 0 || crowded then
          Evicting(Job(k, c, crowded, true, need, usage - w.usage, 0, 0)) else Charged(k, c)).(usage := usage)
  {
    hide Next, Wrap64;
    var w1 := Doing(w, me, Capped(k, c, crowded, w.capacity));
    var w2 := Doing(w, me, Seen(k, c, crowded, w.capacity, w.usage));
    GoOnly(w, me, w1.ops[me], c);
    GoOnly(w1, me, w2.ops[me], c);
    assert Doing(w1, me, w2.ops[me]) == w2;
    var usage := Min(w.capacity, w.usage + c);
    var need := w.usage + c - usage;
    var op := if need > 0 || crowded then Evicting(Job(k, c, crowded, true, need, usage - w.usage, 0, 0))
      else Charged(k, c);
    GoCounting(w2, me, op, usage - w.usage, c);
    assert Doing(w2, me, op) == Doing(w, me, op) && Wrap64(w2.usage + (usage - w.usage)) == usage;
    OneGo(w, me, 3);
    OneGo(w1, me, 2);
    OneGo(w2, me, 1);
  }

  /** Strict limit, after an eviction run that freed so much: the entry is granted exactly if that was enough
      and, in a table that was too full, if anything was evicted at all. Either way usage_ ends up at what
      it was, less what was freed, plus the entry if it was granted. */
  lemma StrictAnswer(w: World, me: nat, j: Job, before: nat)
    requires me < |w.ops| && w.ops[me] == Evicting(j) && j.strict && (j.count == 0 ==> j.freed == 0)
    requires w.usage == before + j.grabbed && j.need + j.grabbed == j.charge && before < WORD
    requires j.freed <= before && before + j.charge < WORD
    ensures Goes(Next(w, me, StopEvicting), me, 1).ops[me] ==
      if j.freed >= j.need && !(j.crowded && j.count == 0) then Charged(j.kind, j.charge)
      else Failed(j.kind, j.charge, true)
    ensures Goes(Next(w, me, StopEvicting), me, 1).usage == before - j.freed +
      (if j.freed >= j.need && !(j.crowded && j.count == 0) then j.charge else 0)
  {
    OneGo(Next(w, me, StopEvicting), me, 1);
  }

  /** Without a strict limit: what an insertion asks the eviction run for. */
  function Wanted(usage: nat, capacity: nat, c: nat): nat {
    if usage + c <= capacity || c > usage then 0
    else if usage > capacity then c + Min(capacity / 1024, c) + 1 else c
  }

  lemma LooseBegins(w: World, me: nat, k: Kind, c: nat, crowded: bool)
    requires me < |w.ops| && w.ops[me] == Began(k, c, crowded) && !w.strict && Sane(w, c) && 3 * c < WORD
    ensures var need := Wanted(w.usage, w.capacity, c);
      var job := Job(k, c, crowded, false, need, 0, 0, 0);
      Goes(w, me, 2) == Doing(w, me, if need > 0 || crowded then Evicting(job) else Settling(job))
  {
    hide Next;
    var w1 := Doing(w, me, SeenLoose(k, c, crowded, w.usage));
    GoOnly(w, me, w1.ops[me], c);
    var need := Wanted(w.usage, w.capacity, c);
    var job := Job(k, c, crowded, false, need, 0, 0, 0);
    var op := if need > 0 || crowded then Evicting(job) else Settling(job);
    GoOnly(w1, me, op, c);
    assert Doing(w1, me, op) == Doing(w, me, op);
    OneGo(w, me, 2);
    OneGo(w1, me, 1);
  }

  /** Without a strict limit an insertion is refused only if the table is too full and nothing could be
      evicted; else it is counted in full, less what was freed. */
  lemma LooseAnswer(w: World, me: nat, j: Job)
    requires me < |w.ops| && w.ops[me] == Evicting(j) && !j.strict && w.usage < WORD
    requires j.freed <= w.usage && w.usage + j.charge < WORD
    ensures j.crowded && j.count == 0 ==>
      && Next(w, me, StopEvicting).ops[me] == Failed(j.kind, j.charge, false)
      && Next(w, me, StopEvicting).usage == w.usage
    ensures !(j.crowded && j.count == 0) ==>
      && Goes(Next(w, me, StopEvicting), me, 1).ops[me] == Charged(j.kind, j.charge)
      && Goes(Next(w, me, StopEvicting), me, 1).usage == w.usage + j.charge - j.freed
  {
    OneGo(Next(w, me, StopEvicting), me, 1);
  }

  /** So usage_ never drifts away from the capacity: an insertion that would exceed it, and whose eviction run
      frees what it is asked for, does not raise usage_, and lowers it if it was above the capacity. */
  lemma NoDrift(usage: nat, capacity: nat, c: nat, freed: nat)
    requires usage + c > capacity && c <= usage && Wanted(usage, capacity, c) <= freed
    ensures usage + c - freed <= usage && (usage > capacity ==> usage + c - freed < usage)
  {
  }

  /** A fallback entry for a caller who wants a handle is counted all the same; else nothing is left behind. */
  lemma FailedEnds(w: World, me: nat, k: Kind, c: nat, strict: bool)
    requires me < |w.ops| && w.ops[me] == Failed(k, c, strict) && k.ToTable? && Sane(w, c) && w.occupancy > 0
    ensures var n := Goes(w, me, if !strict && k.keep then 3 else 1);
      && n.ops[me].Idle? && n.table == w.table && n.occupancy == w.occupancy - 1
      && n.usage == w.usage + (if !strict && k.keep then c else 0)
      && n.heap == w.heap + (if !strict && k.keep then [Holding(c)] else [])
  {
    var n := if !strict && k.keep then 3 else 1;
    OneGo(w, me, n);
    if n == 3 {
      var w1 := Next(w, me, Go);
      OneGo(w1, me, 2);
      OneGo(Next(w1, me, Go), me, 1);
    }
  }

  /** An entry that was charged for and found no place in the table becomes a standalone entry for a caller who
      wants a handle; else its charge is taken back. */
  lemma NotInsertedEnds(w: World, me: nat, keep: bool, c: nat)
    requires me < |w.ops| && w.ops[me] == NotInserted(keep, c) && Sane(w, c) && w.occupancy > 0 && c <= w.usage
    requires w.standalone + c < WORD
    ensures var n := Goes(w, me, 2);
      && n.ops[me].Idle? && n.table == w.table && n.occupancy == w.occupancy - 1
      && n.usage == w.usage - (if keep then 0 else c)
      && n.heap == w.heap + (if keep then [Holding(c)] else []) && n.standalone == w.standalone + if keep then c else 0
  {
    OneGo(w, me, 2);
    OneGo(Next(w, me, Go), me, 1);
  }
}
