/** Every grow ends. Each step that a thread makes in an operation brings it closer to the end of that
    operation, whatever other threads do in between; and as long as an operation is under way, some
    operation under way can make a step. */
module GrowEnds {
  import opened Arith
  import opened LinearHashing
  import opened GrowProtocol

  /** Actions with which an idle thread begins an operation. */
  predicate Begins(a: Action) { a.Reserve? || a.FallForward? || a.Purge? }

  /** The lengths that a catch-up to grow home `g` has still to publish, or see published. */
  function Gap(g: nat, length: nat): nat { if length <= g then g + 1 - length else 0 }

  predicate HasLock(s: Grid, t: nat, g: nat) { g >= 1 && At(s, OldHome(g)).holder == t }

  /** A bound on the steps that thread `t` has still to make in its operation. */
  function Weight(s: Grid, t: nat): nat
    requires t < |s.threads|
  {
    var me := s.threads[t];
    var catchUp := 2 + 2 * Gap(me.g, s.initial);
    match me.stage
    case Idle => 0
    case Refused => 1
    case Purging => 1
    case Looping => 1 + 2 * Gap(me.g, me.cur)
    case Exchanging => 2 * Gap(me.g, me.cur)
    case Loading => catchUp
    case HalfReleased => catchUp + 1
    case Published => catchUp + 2
    case Prepared => catchUp + if HasLock(s, t, me.g) then 3 else 5
    case Splitting => catchUp + if HasLock(s, t, me.g) then 4 else 6
    case Locking => catchUp + 7
    case Waiting => catchUp + 8
  }

  /** Every step of an operation is progress. */
  lemma OwnStep(s: Grid, t: nat, a: Action)
    requires Inv(s) && Enabled(s, t, a) && !Begins(a)
    ensures t < |Next(s, t, a).threads| && Weight(Next(s, t, a), t) < Weight(s, t)
  {
    hide HeadShift, OldHome, Child, Base, FloorLog2, Pow2, Covered, HeadsOk, PublishedOk, LocksOk, NotReady, Elder;
    assert ThreadOk(s, s.threads[t]);
    if s.threads[t].Unpublished() {
      OldInRange(s, s.threads[t].g);
      OldHomeBase(s.initial, s.threads[t].g);
    }
  }

  lemma SameShape(s: Grid, t: nat, a: Action)
    requires Enabled(s, t, a)
    ensures var n := Next(s, t, a); n.initial == s.initial && |n.heads| == |s.heads| && |n.threads| == |s.threads|
  {
  }

  /** No step of another thread takes progress back. */
  lemma OthersStep(s: Grid, u: nat, a: Action, t: nat)
    requires Inv(s) && Enabled(s, u, a) && t < |s.threads| && t != u
    ensures t < |Next(s, u, a).threads| && Weight(Next(s, u, a), t) <= Weight(s, t)
  {
    hide HeadShift, OldHome, Child, Base, FloorLog2, Pow2, Covered, HeadsOk, PublishedOk, LocksOk, NotReady, Elder;
    hide Enabled, Next;
    assert ThreadOk(s, s.threads[t]);
    OnlyOwn(s, u, a, t);
    SameShape(s, u, a);
    var g := s.threads[t].g;
    if s.threads[t].Unpublished() && HasLock(s, t, g) {
      OldInRange(s, g);
      OthersLock(s, u, a, OldHome(g));
    }
  }

  // ---------------------------------------------------------------------------------------
  // One thread

  /** A part of a run, from any moment on. */
  ghost predicate IsPart(part: seq<Grid>, events: seq<Event>) {
    && |part| == |events| + 1 && Inv(part[0])
    && forall i | 0 <= i < |events| :: IsStep(part[i], events[i], part[i + 1])
  }

  function StepsOf(events: seq<Event>, t: nat): nat {
    if events == [] then 0
    else StepsOf(events[..|events| - 1], t) + if events[|events| - 1].thread == t then 1 else 0
  }

  lemma {:induction false} PartKeepsInv(part: seq<Grid>, events: seq<Event>, i: nat)
    requires IsPart(part, events) && i < |part|
    ensures Inv(part[i]) && |part[i].threads| == |part[0].threads|
  {
    hide Inv, Enabled, Next;
    if i > 0 {
      PartKeepsInv(part, events, i - 1);
      assert IsStep(part[i - 1], events[i - 1], part[i - 1 + 1]);
      StepKeepsInv(part[i - 1], events[i - 1].thread, events[i - 1].action);
      SameShape(part[i - 1], events[i - 1].thread, events[i - 1].action);
    }
  }

  /** However many steps other threads make meanwhile, a thread makes at most as many as its weight says
      before its operation is over. */
  lemma {:induction false} StepsBounded(part: seq<Grid>, events: seq<Event>, t: nat)
    requires IsPart(part, events) && t < |part[0].threads|
    requires forall i | 0 <= i < |events| && events[i].thread == t :: !Begins(events[i].action)
    ensures |part[|events|].threads| == |part[0].threads|
    ensures StepsOf(events, t) + Weight(part[|events|], t) <= Weight(part[0], t)
  {
    hide Inv, Enabled, Next, Weight;
    if events != [] {
      var n := |events| - 1;
      assert IsPart(part[..n + 1], events[..n]);
      StepsBounded(part[..n + 1], events[..n], t);
      PartKeepsInv(part, events, n);
      assert IsStep(part[n], events[n], part[n + 1]);
      SameShape(part[n], events[n].thread, events[n].action);
      if events[n].thread == t {
        OwnStep(part[n], t, events[n].action);
      } else {
        OthersStep(part[n], events[n].thread, events[n].action, t);
      }
    }
  }

  /** What a bound in grow home and length comes to. */
  lemma WeightIs(s: Grid, t: nat)
    requires Inv(s) && t < |s.threads|
    ensures Weight(s, t) <= 10 + 2 * Gap(s.threads[t].g, s.initial)
  {
    hide OldHome, HeadsOk, PublishedOk, Covered, LocksOk;
    assert ThreadOk(s, s.threads[t]);
  }

  predicate CatchingUp(th: Thread) { th.stage.Loading? || th.stage.Looping? || th.stage.Exchanging? }

  /** The next action of a thread that is catching up. */
  function Onwards(th: Thread): Action
    requires CatchingUp(th)
  {
    if th.stage.Loading? then Load else if th.stage.Looping? then Look else Exchange
  }

  /** A catch-up never waits, and it is over exactly when its grow home is covered by the length in effect
      or the home numbered by that length is not published. */
  lemma CatchUpStep(s: Grid, t: nat)
    requires Inv(s) && t < |s.threads| && CatchingUp(s.threads[t])
    ensures var a := Onwards(s.threads[t]);
      && Enabled(s, t, a)
      && var n := Next(s, t, a);
         && t < |n.threads| && n == s.(length := n.length, threads := s.threads[t := n.threads[t]])
         && n.threads[t].g == s.threads[t].g
         && (n.threads[t].stage.Idle? || CatchingUp(n.threads[t]))
         && (n.threads[t].stage.Idle? ==> s.threads[t].g < n.length || n.length !in n.published)
         && s.length <= n.length <= (if s.length <= s.threads[t].g then s.threads[t].g + 1 else s.length)
  {
    hide HeadShift, OldHome, Child, Base, FloorLog2, Pow2, Covered, HeadsOk, PublishedOk, LocksOk, NotReady;
    assert ThreadOk(s, s.threads[t]);
    if s.threads[t].stage.Looping? && s.threads[t].cur <= s.threads[t].g {
      LookTells(s, s.threads[t]);
    }
  }

  /** Alone from any moment on, a catch-up ends within a bound in its grow home and the length. It has then
      published every length it could: all homes up to its own, or up to one that is not published. */
  lemma {:induction false} CatchUpEnds(s: Grid, t: nat) returns (part: seq<Grid>, events: seq<Event>)
    requires Inv(s) && t < |s.threads| && CatchingUp(s.threads[t])
    ensures IsPart(part, events) && part[0] == s && |events| <= Weight(s, t) <= 2 + 2 * Gap(s.threads[t].g, s.initial)
    ensures forall i | 0 <= i < |events| :: events[i].thread == t && !Begins(events[i].action)
    ensures var g, end := s.threads[t].g, part[|events|];
      && t < |end.threads| && end == s.(length := end.length, threads := s.threads[t := end.threads[t]])
      && end.threads[t].stage.Idle?
      && s.length <= end.length <= (if s.length <= g then g + 1 else s.length)
      && (g < end.length || end.length !in s.published)
    decreases Weight(s, t)
  {
    hide Enabled, Next, Inv, Weight;
    var a := Onwards(s.threads[t]);
    CatchUpStep(s, t);
    OwnStep(s, t, a);
    StepKeepsInv(s, t, a);
    CatchUpWeight(s, t);
    var n := Next(s, t, a);
    if n.threads[t].stage.Idle? {
      part, events := [s, n], [Event(t, a)];
    } else {
      var p, e := CatchUpEnds(n, t);
      part, events := [s] + p, [Event(t, a)] + e;
    }
  }

  lemma CatchUpWeight(s: Grid, t: nat)
    requires Inv(s) && t < |s.threads| && CatchingUp(s.threads[t])
    ensures Weight(s, t) <= 2 + 2 * Gap(s.threads[t].g, s.initial)
  {
    hide OldHome, HeadsOk, PublishedOk, Covered, LocksOk;
    assert ThreadOk(s, s.threads[t]);
  }

  // ---------------------------------------------------------------------------------------
  // All threads

  function Total(s: Grid, n: nat): nat
    requires n <= |s.threads|
  {
    if n == 0 then 0 else Total(s, n - 1) + Weight(s, n - 1)
  }

  lemma {:induction false} TotalStep(s: Grid, u: nat, a: Action, n: nat)
    requires Inv(s) && Enabled(s, u, a) && !Begins(a) && n <= |s.threads|
    ensures n <= |Next(s, u, a).threads| && Total(Next(s, u, a), n) + (if u < n then 1 else 0) <= Total(s, n)
  {
    hide Inv, Enabled, Next, Weight;
    SameShape(s, u, a);
    if n > 0 {
      TotalStep(s, u, a, n - 1);
      if u == n - 1 {
        OwnStep(s, u, a);
      } else {
        OthersStep(s, u, a, n - 1);
      }
    }
  }

  ghost predicate AtRest(s: Grid) {
    forall t | 0 <= t < |s.threads| :: s.threads[t].stage.Idle?
  }

  /** Whatever the interleaving, only finitely many steps can be made before another operation begins. */
  lemma {:induction false} RunsEnd(part: seq<Grid>, events: seq<Event>)
    requires IsPart(part, events) && forall i | 0 <= i < |events| :: !Begins(events[i].action)
    ensures |part[|events|].threads| == |part[0].threads|
    ensures |events| + Total(part[|events|], |part[0].threads|) <= Total(part[0], |part[0].threads|)
  {
    hide Inv, Enabled, Next, Total;
    if events != [] {
      var n := |events| - 1;
      assert IsPart(part[..n + 1], events[..n]);
      RunsEnd(part[..n + 1], events[..n]);
      PartKeepsInv(part, events, n);
      assert IsStep(part[n], events[n], part[n + 1]);
      IsThread(part[n], events[n].thread, events[n].action);
      SameShape(part[n], events[n].thread, events[n].action);
      TotalStep(part[n], events[n].thread, events[n].action, |part[0].threads|);
    }
  }

  lemma IsThread(s: Grid, t: nat, a: Action)
    requires Enabled(s, t, a)
    ensures t < |s.threads| && (Begins(a) ==> s.threads[t].stage.Idle?)
  {
  }

  /** And they end with every operation finished: from every moment of every run, the steps that are
      possible without beginning another operation lead to rest, in whatever order they are taken. */
  lemma {:induction false} AllFinish(s: Grid) returns (part: seq<Grid>, events: seq<Event>)
    requires Inv(s)
    ensures IsPart(part, events) && part[0] == s && AtRest(part[|events|])
    ensures forall i | 0 <= i < |events| :: !Begins(events[i].action)
    decreases Total(s, |s.threads|)
  {
    hide Inv, Enabled, Next, Total;
    if t: nat :| t < |s.threads| && !s.threads[t].stage.Idle? {
      var u, a := NoDeadlock(s, t);
      IsThread(s, u, a);
      SameShape(s, u, a);
      TotalStep(s, u, a, |s.threads|);
      StepKeepsInv(s, u, a);
      var p, e := AllFinish(Next(s, u, a));
      part, events := [s] + p, [Event(u, a)] + e;
    } else {
      part, events := [s], [];
    }
  }

  /** A run that cannot be continued without beginning another operation is at rest. */
  lemma StuckAtRest(s: Grid)
    requires Inv(s) && forall u, a | Enabled(s, u, a) :: Begins(a)
    ensures AtRest(s)
  {
    hide Inv, Enabled, Next;
    if t: nat :| t < |s.threads| && !s.threads[t].stage.Idle? {
      var u, a := NoDeadlock(s, t);
      IsThread(s, u, a);
    }
  }

  /** A grow takes the next home, unless the array has none left. */
  lemma TakesNextHome(s: Grid, t: nat)
    requires Enabled(s, t, Reserve)
    ensures var n := Next(s, t, Reserve);
      && n.frontier == s.frontier + 1 && t < |n.threads|
      && (if s.frontier < |s.heads| then OnItsWay(n, t, s.frontier) else n.threads[t].stage.Refused?)
  {
  }

  /** And at rest every home that was taken is in use. */
  lemma AllPublished(s: Grid, h: nat)
    requires Inv(s) && AtRest(s) && h < s.frontier && h < |s.heads|
    ensures Usable(s, h)
  {
    hide HeadsOk, ThreadsOk, LocksOk, PublishedOk;
    assert forall t: nat :: !OnItsWay(s, t, h);
  }
}
