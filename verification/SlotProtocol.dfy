/** The low-level protocol of one HyperClockCache slot: any number of threads race on its metadata
    word with fetch-add, fetch-or, fetch-and and compare-exchange, one atomic operation per step. */
module SlotProtocol {
  import opened Arith
  import opened Slots
  import opened ClockTurns

  const COUNTER := 0x4000_0000   // 2^30, the size of either counter field
  const TOP := 0x2000_0000       // 2^29, its top bit
  const THRESHOLD := TOP + MAX_COUNTDOWN
  /** The most references that may be held at once for the counters to stay exact. */
  const MAX_REFS := TOP - 7

  /** What one thread has: references to the current entry, exclusive ownership of the slot, and the
      word it loaded for its next compare-exchange. */
  datatype Thread = Thread(refs: nat, owner: bool, saved: Meta)

  /** The slot. `entry` numbers the entries that have lived in it; `key` is the data of the last one. */
  datatype Sys = Sys(meta: Meta, entry: nat, key: HashedKey, threads: seq<Thread>)

  datatype Action =
    | Acquire(n: nat)                                        // fetch-add to the acquire counter
    | Release(n: nat)                                        // fetch-add to the release counter
    | Unref(n: nat)                                          // fetch-sub from the acquire counter
    | Load
    | SetOccupied                                            // fetch-or of the occupied flag
    | Publish(countdown: nat, keepRef: bool, key: HashedKey) // store, as owner
    | MarkInvisible                                          // fetch-and clearing the visible flag
    | TakeToFree(held: nat, keepHit: bool)                   // compare-exchange to "under construction"
    | ClockDown                                              // compare-exchange of a decremented countdown
    | MarkEmpty                                              // store, as owner
    | SetHit

  ghost function TotalRefs(threads: seq<Thread>): nat {
    if threads == [] then 0 else threads[0].refs + TotalRefs(threads[1..])
  }

  // ---------------------------------------------------------------------------------------
  // The atomic operations on the word
  // ---------------------------------------------------------------------------------------

  /** Adding to the lowest field carries into the next one when it overflows. */
  function AddAcquire(m: Meta, n: nat): Meta {
    if m.acquire + n < COUNTER then m.(acquire := m.acquire + n)
    else m.(acquire := m.acquire + n - COUNTER, release := m.release + 1)
  }

  /** Subtracting more than the field holds borrows from the next one. */
  function SubAcquire(m: Meta, n: nat): Meta
    requires n < COUNTER
  {
    if n <= m.acquire then m.(acquire := m.acquire - n)
    else m.(acquire := m.acquire + COUNTER - n, release := if m.release > 0 then m.release - 1 else COUNTER - 1)
  }

  /** CorrectNearOverflow: clear the top bit of both counters once the release counter is high. */
  function Corrected(oldRelease: nat, m: Meta): Meta {
    if oldRelease > THRESHOLD then m.(acquire := m.acquire % TOP, release := m.release % TOP) else m
  }

  function AddRelease(m: Meta, n: nat): Meta { Corrected(m.release, m.(release := m.release + n)) }

  /** What an operation demands of the thread that performs it. */
  predicate Enabled(s: Sys, t: nat, a: Action)
    requires t < |s.threads|
  {
    var me := s.threads[t];
    match a
    case Acquire(n) => 1 <= n <= MAX_COUNTDOWN
    case Release(n) => 1 <= n <= me.refs && n <= MAX_COUNTDOWN
    case Unref(n) => 1 <= n <= me.refs && n <= MAX_COUNTDOWN
    case Load => true
    case SetOccupied => !me.owner
    case Publish(countdown, _, _) => me.owner && 1 <= countdown <= MAX_COUNTDOWN
    case MarkInvisible => me.refs > 0
    case TakeToFree(held, _) => held <= 1 && me.refs >= held && me.saved.Shareable() && me.saved.Refcount() == held
    case ClockDown => me.saved.state.Visible? && me.saved.Refcount() == 0 && me.saved.acquire > 0
    case MarkEmpty => me.owner
    case SetHit => me.refs > 0
  }

  /** The bounds the code assumes: not too many references at once, and fewer than 2^60 increments
      of the word while the slot holds no entry. */
  ghost predicate Feasible(s: Sys, a: Action) {
    a.Acquire? ==> if s.meta.Shareable() then TotalRefs(s.threads) + a.n <= MAX_REFS
                   else s.meta.acquire + a.n < COUNTER || s.meta.release + 1 < COUNTER
  }

  function Next(s: Sys, t: nat, a: Action): Sys
    requires t < |s.threads| && Enabled(s, t, a)
  {
    var me := s.threads[t];
    match a
    case Acquire(n) =>
      var s1 := s.(meta := AddAcquire(s.meta, n));
      // only in a shareable slot is the increment a reference; otherwise it stays behind
      if s.meta.Shareable() then s1.(threads := s.threads[t := me.(refs := me.refs + n)]) else s1
    case Release(n) =>
      s.(meta := AddRelease(s.meta, n), threads := s.threads[t := me.(refs := me.refs - n)])
    case Unref(n) =>
      s.(meta := SubAcquire(s.meta, n),
         threads := s.threads[t := me.(refs := me.refs - n)])
    case Load => s.(threads := s.threads[t := me.(saved := s.meta)])
    case SetOccupied =>
      if s.meta.state.Empty? then
        s.(meta := s.meta.(state := Construction), threads := s.threads[t := me.(owner := true)])
      else s
    case Publish(countdown, keepRef, key) =>
      var kept := if keepRef then 1 else 0;
      Sys(Meta(countdown, countdown - kept, false, Visible), s.entry + 1, key,
          s.threads[t := me.(owner := false, refs := kept)])
    case MarkInvisible =>
      if s.meta.state.Visible? then s.(meta := s.meta.(state := Invisible)) else s
    case TakeToFree(held, keepHit) =>
      if s.meta == me.saved then
        s.(meta := Meta(0, 0, keepHit && s.meta.hit, Construction),
            threads := s.threads[t := me.(owner := true, refs := me.refs - held)])
      else s.(threads := s.threads[t := me.(saved := s.meta)])
    case ClockDown =>
      var count := Min(me.saved.acquire - 1, MAX_COUNTDOWN - 1);
      if s.meta == me.saved then s.(meta := s.meta.(acquire := count, release := count)) else s
    case MarkEmpty => s.(meta := EMPTY_META, threads := s.threads[t := me.(owner := false)])
    case SetHit => s.(meta := s.meta.(hit := true))
  }

  // ---------------------------------------------------------------------------------------
  // Invariant
  // ---------------------------------------------------------------------------------------

  ghost predicate SoleOwner(s: Sys) {
    && (s.meta.state.Construction? ==> exists t :: 0 <= t < |s.threads| && s.threads[t].owner)
    && (forall t, u | 0 <= t < u < |s.threads| :: !(s.threads[t].owner && s.threads[u].owner))
    && (!s.meta.state.Construction? ==> forall t | 0 <= t < |s.threads| :: !s.threads[t].owner)
  }

  ghost predicate Inv(s: Sys) {
    && s.meta.acquire < COUNTER && s.meta.release < COUNTER
    && SoleOwner(s)
    && (if s.meta.Shareable()
        then s.meta.Refcount() == TotalRefs(s.threads) <= MAX_REFS && s.meta.release <= THRESHOLD + MAX_COUNTDOWN
        else TotalRefs(s.threads) == 0)
  }

  lemma {:induction false} TotalRefsUpdate(threads: seq<Thread>, t: nat, me: Thread)
    requires t < |threads|
    ensures TotalRefs(threads[t := me]) == TotalRefs(threads) - threads[t].refs + me.refs
  {
    var u := threads[t := me];
    if t > 0 {
      TotalRefsUpdate(threads[1..], t - 1, me);
      assert u[1..] == threads[1..][t - 1 := me];
    } else {
      assert u[1..] == threads[1..];
    }
  }

  lemma {:induction false} TotalRefsBound(threads: seq<Thread>, t: nat)
    requires t < |threads|
    ensures threads[t].refs <= TotalRefs(threads)
  {
    if t > 0 {
      TotalRefsBound(threads[1..], t - 1);
    }
  }

  /** Clearing the top bits keeps the number of references and the effective countdown. */
  lemma CorrectionIsInvisible(m: Meta, n: nat)
    requires m.acquire < COUNTER && m.release <= THRESHOLD + MAX_COUNTDOWN && 1 <= n <= MAX_COUNTDOWN
    requires m.release + n <= m.acquire
    ensures AddRelease(m, n).Refcount() == m.Refcount() - n
    ensures Min(AddRelease(m, n).acquire, MAX_COUNTDOWN) == Min(m.acquire, MAX_COUNTDOWN)
    ensures AddRelease(m, n).acquire < COUNTER && AddRelease(m, n).release <= THRESHOLD + MAX_COUNTDOWN
    ensures m.release > THRESHOLD ==> AddRelease(m, n).acquire < TOP
    ensures AddRelease(m, n).state == m.state && AddRelease(m, n).hit == m.hit
  {
  }

  lemma RefsMeanShareable(s: Sys, t: nat)
    requires Inv(s) && t < |s.threads| && s.threads[t].refs > 0
    ensures s.meta.Shareable() && s.threads[t].refs <= TotalRefs(s.threads) == s.meta.Refcount()
  {
    TotalRefsBound(s.threads, t);
  }

  lemma StepKeepsInv(s: Sys, t: nat, a: Action)
    requires Inv(s) && t < |s.threads| && Enabled(s, t, a) && Feasible(s, a)
    ensures Inv(Next(s, t, a))
  {
    var s' := Next(s, t, a);
    TotalRefsUpdate(s.threads, t, s'.threads[t]);
    TotalRefsBound(s.threads, t);
    assert s'.threads == s.threads || s'.threads == s.threads[t := s'.threads[t]];
    assert s.threads[t := s.threads[t]] == s.threads;
    if a.Release? {
      CorrectionIsInvisible(s.meta, a.n);
    }
    OwnerKept(s, t, a);
  }

  lemma OwnerKept(s: Sys, t: nat, a: Action)
    requires Inv(s) && t < |s.threads| && Enabled(s, t, a)
    ensures SoleOwner(Next(s, t, a))
  {
    var s' := Next(s, t, a);
    if s'.meta.state.Construction? && s.meta.state.Construction? {
      var u :| 0 <= u < |s.threads| && s.threads[u].owner;
      assert s'.threads[u].owner;
    } else if s'.meta.state.Construction? {
      assert s'.threads[t].owner;
    }
  }

  // ---------------------------------------------------------------------------------------
  // Whole runs, under any interleaving
  // ---------------------------------------------------------------------------------------

  ghost predicate Init(s: Sys) {
    && s.meta == EMPTY_META
    && forall t | 0 <= t < |s.threads| :: s.threads[t].refs == 0 && !s.threads[t].owner
  }

  datatype Event = Event(thread: nat, action: Action)

  ghost predicate IsStep(s: Sys, e: Event, s': Sys) {
    && e.thread < |s.threads| && Enabled(s, e.thread, e.action) && Feasible(s, e.action)
    && s' == Next(s, e.thread, e.action)
  }

  ghost predicate IsRun(run: seq<Sys>, events: seq<Event>) {
    && |run| == |events| + 1 && Init(run[0])
    && forall i | 0 <= i < |events| :: IsStep(run[i], events[i], run[i + 1])
  }

  lemma {:induction false} NoRefs(threads: seq<Thread>)
    requires forall t | 0 <= t < |threads| :: threads[t].refs == 0
    ensures TotalRefs(threads) == 0
  {
    if threads != [] {
      NoRefs(threads[1..]);
    }
  }

  /** At every moment of every run: both counters in range; at most one owner, and one exactly when the
      slot is under construction; and in a shareable slot, acquires minus releases is the number of
      references actually held, whatever stray increments happened before the entry was published. */
  lemma {:induction false} EveryMoment(run: seq<Sys>, events: seq<Event>, i: nat)
    requires IsRun(run, events) && i < |run|
    ensures Inv(run[i])
  {
    if i == 0 {
      NoRefs(run[0].threads);
    } else {
      EveryMoment(run, events, i - 1);
      assert IsStep(run[i - 1], events[i - 1], run[i - 1 + 1]);
      StepKeepsInv(run[i - 1], events[i - 1].thread, events[i - 1].action);
    }
  }

  /** An entry is only taken for freeing when nobody but the taker holds a reference to it. */
  lemma TakenUnreferenced(run: seq<Sys>, events: seq<Event>, i: nat)
    requires IsRun(run, events) && i + 1 < |run|
    requires run[i].meta.Shareable() && run[i + 1].meta.state.Construction?
    ensures events[i].action.TakeToFree? && run[i + 1].threads[events[i].thread].owner
    ensures run[i].threads[events[i].thread].refs == events[i].action.held
    ensures forall u | 0 <= u < |run[i].threads| && u != events[i].thread :: run[i].threads[u].refs == 0
    ensures TotalRefs(run[i + 1].threads) == 0
  {
    EveryMoment(run, events, i);
    EveryMoment(run, events, i + 1);
    var s, t := run[i], events[i].thread;
    assert IsStep(s, events[i], run[i + 1]);
    TotalRefsBound(s.threads, t);
    forall u | 0 <= u < |s.threads| && u != t ensures s.threads[u].refs == 0 {
      TwoRefsBound(s.threads, t, u);
    }
  }

  lemma {:induction false} TwoRefsBound(threads: seq<Thread>, t: nat, u: nat)
    requires t < |threads| && u < |threads| && t != u
    ensures threads[t].refs + threads[u].refs <= TotalRefs(threads)
  {
    if t == 0 {
      TotalRefsBound(threads[1..], u - 1);
    } else if u == 0 {
      TotalRefsBound(threads[1..], t - 1);
    } else {
      TwoRefsBound(threads[1..], t - 1, u - 1);
    }
  }

  /** While a thread keeps holding a reference, the entry stays in place with its key. */
  lemma {:induction false} ReferencePins(run: seq<Sys>, events: seq<Event>, t: nat, i: nat, j: nat)
    requires IsRun(run, events) && i <= j < |run|
    requires forall k | i <= k <= j :: t < |run[k].threads| && run[k].threads[t].refs > 0
    ensures run[j].meta.Shareable() && run[j].entry == run[i].entry && run[j].key == run[i].key
    decreases j - i
  {
    EveryMoment(run, events, j);
    RefsMeanShareable(run[j], t);
    if i < j {
      ReferencePins(run, events, t, i, j - 1);
      assert IsStep(run[j - 1], events[j - 1], run[j - 1 + 1]);
      EveryMoment(run, events, j - 1);
    }
  }

  /** An erased entry never becomes visible again: only a later entry of the slot can be. */
  lemma {:induction false} InvisibleForGood(run: seq<Sys>, events: seq<Event>, i: nat, j: nat)
    requires IsRun(run, events) && i <= j < |run| && !run[i].meta.state.Visible?
    ensures run[i].entry <= run[j].entry
    ensures run[j].meta.state.Visible? ==> run[i].entry < run[j].entry
    decreases j - i
  {
    if i < j {
      InvisibleForGood(run, events, i, j - 1);
      assert IsStep(run[j - 1], events[j - 1], run[j - 1 + 1]);
    }
  }

  // ---------------------------------------------------------------------------------------
  // How long an entry lives
  // ---------------------------------------------------------------------------------------

  /** A compare-exchange of a decremented countdown that succeeds. */
  predicate TicksDown(s: Sys, e: Event) {
    e.action.ClockDown? && e.thread < |s.threads| && s.threads[e.thread].saved == s.meta
  }

  /** It does what one clock update does to the word. */
  lemma ClockIsTick(s: Sys, e: Event)
    requires e.thread < |s.threads| && Enabled(s, e.thread, e.action) && e.action.ClockDown?
    ensures Next(s, e.thread, e.action).meta == if TicksDown(s, e) then Tick(s.meta) else s.meta
  {
  }

  function Downs(run: seq<Sys>, events: seq<Event>, i: nat, j: nat): nat
    requires i <= j < |run| && |run| == |events| + 1
  {
    if i == j then 0 else Downs(run, events, i, j - 1) + if TicksDown(run[j - 1], events[j - 1]) then 1 else 0
  }

  /** What a step does to the countdown of an entry that stays visible. */
  lemma CountdownStep(s: Sys, e: Event, n: Sys)
    requires Inv(s) && IsStep(s, e, n) && s.meta.state.Visible? && n.meta.state.Visible?
    ensures n.entry == s.entry
    ensures Min(s.meta.release, MAX_COUNTDOWN)
        <= Min(n.meta.release, MAX_COUNTDOWN) + (if TicksDown(s, e) then 1 else 0)
    ensures !e.action.Release? && s.meta.release <= MAX_COUNTDOWN ==>
        n.meta.release + (if TicksDown(s, e) then 1 else 0) == s.meta.release
  {
    TotalRefsBound(s.threads, e.thread);
    if e.action.Release? {
      CorrectionIsInvisible(s.meta, e.action.n);
    }
  }

  lemma PublishStep(s: Sys, e: Event, n: Sys)
    requires IsStep(s, e, n) && e.action.Publish?
    ensures n.meta.release == e.action.countdown - (if e.action.keepRef then 1 else 0) <= MAX_COUNTDOWN
  {
  }

  /** In any interleaving, an entry inserted with some countdown has had as many clock updates before the
      clock can take it, less the one that a kept reference stands for; uses only make it live longer, and
      without any it is exactly that many. */
  lemma {:induction false} LivesItsCountdown(run: seq<Sys>, events: seq<Event>, i: nat, j: nat)
    requires IsRun(run, events) && 0 < i <= j < |run| && events[i - 1].action.Publish?
    requires forall k | i <= k <= j :: run[k].meta.state.Visible?
    ensures var p := events[i - 1].action;
      var life := p.countdown - if p.keepRef then 1 else 0;
      && run[j].entry == run[i].entry
      && life <= Min(run[j].meta.release, MAX_COUNTDOWN) + Downs(run, events, i, j)
      && ((forall k | i <= k < j :: !events[k].action.Release?) ==>
            run[j].meta.release + Downs(run, events, i, j) == life)
    decreases j - i
  {
    hide Next, Enabled, Inv, Feasible, Init;
    assert IsStep(run[j - 1], events[j - 1], run[j - 1 + 1]);
    if i < j {
      LivesItsCountdown(run, events, i, j - 1);
      EveryMoment(run, events, j - 1);
      CountdownStep(run[j - 1], events[j - 1], run[j]);
    } else {
      PublishStep(run[j - 1], events[j - 1], run[j]);
    }
  }
}
