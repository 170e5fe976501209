/** Growing the Auto table: any number of threads take grow homes in turn, wait for the split that feeds
    theirs, split in any order, and then publish as much of the new length as they can without waiting.
    One atomic operation per step; chains are reduced to the shift and the rewrite lock of their heads. */
module GrowProtocol {
  import opened Arith
  import opened LinearHashing

  /** A chain head; shift 0 is the unused marker. `holder` has the rewrite lock, unless it is -1. */
  datatype Head = Head(shift: nat, holder: int)

  datatype Stage =
    | Idle
    | Refused        // took a grow home past the end of the array
    | Waiting        // for the split that feeds this one
    | Locking        // the old home's chain
    | Splitting      // up to storing the grow home's head
    | Prepared       // up to the exchange of the old home's head
    | Published      // migrating the two chains
    | HalfReleased   // the grow home's chain is unlocked
    | Loading        // CatchUpLengthInfoNoWait: about to load the published length,
    | Looping        // at the loop condition,
    | Exchanging     // about to exchange the length
    | Purging        // some other operation that holds the lock of a chain

  /** `g` is the grow home, or the home being purged; `cur` the length last seen. */
  datatype Thread = Thread(stage: Stage, g: nat, cur: nat) {
    predicate Unpublished() { stage.Waiting? || stage.Locking? || stage.Splitting? || stage.Prepared? }
    predicate Done() { stage.Published? || stage.HalfReleased? || stage.Loading? || stage.Looping?
        || stage.Exchanging? }
  }

  /** `published` are the grow homes whose split is visible to other threads. */
  datatype Grid = Grid(initial: nat, heads: seq<Head>, frontier: nat, length: nat, published: set<nat>,
      threads: seq<Thread>)

  datatype Action =
    | Reserve                        // fetch-add on the grow frontier
    | GiveUp                         // store of the array size to the grow frontier
    | Pass                           // the awaited head has the shift and is unlocked
    | Acquire(empty: bool)           // the rewrite lock of the old home, which an empty chain has not
    | Reacquire                      // after an insertion made an empty chain non-empty
    | Prepare(empty: bool)           // store of the grow home's head
    | Publish(empty: bool)           // exchange of the old home's head
    | ReleaseOne
    | ReleaseZero
    | Load                           // of the published length
    | Look                           // at the loop condition and the head that tells
    | Exchange                       // of the published length
    | FallForward(h: nat, shift: nat) // an insertion found a newer shift on the head of `h`
    | Purge(h: nat)
    | Unpurge

  /** The head whose shift tells that the split feeding grow home `g` is done. */
  function Elder(g: nat): nat
    requires g >= 2
  {
    HomeAt(g, FloorLog2(g) - 1)
  }

  ghost predicate Usable(s: Grid, h: nat) { h < s.initial || h in s.published }

  function At(s: Grid, h: nat): Head { if h < |s.heads| then s.heads[h] else Head(0, -1) }

  ghost predicate Enabled(s: Grid, t: nat, a: Action) {
    && t < |s.threads|
    && var me := s.threads[t];
       match a
       case Reserve => me.stage.Idle?
       case GiveUp => me.stage.Refused?
       case Pass => me.stage.Waiting? && me.g >= 2 && At(s, Elder(me.g)).shift >= FloorLog2(me.g)
           && At(s, Elder(me.g)).holder == -1
       case Acquire(empty) => me.stage.Locking? && me.g >= 1 && At(s, OldHome(me.g)).holder == -1
       case Reacquire => (me.stage.Splitting? || me.stage.Prepared?) && me.g >= 1 && At(s, OldHome(me.g)).holder == -1
       case Prepare(empty) => me.stage.Splitting? && 1 <= me.g < |s.heads|
           && (empty || At(s, OldHome(me.g)).holder == t)
       case Publish(empty) =>
         && me.stage.Prepared? && 1 <= me.g < |s.heads|
         && (At(s, OldHome(me.g)).holder == t || (At(s, OldHome(me.g)).holder == -1 && empty
             && At(s, me.g).holder == -1))
       case ReleaseOne => me.stage.Published?
       case ReleaseZero => me.stage.HalfReleased? && me.g >= 1
       case Load => me.stage.Loading?
       case Look => me.stage.Looping?
       case Exchange => me.stage.Exchanging?
       case FallForward(h, shift) => me.stage.Idle? && Usable(s, h) && Base(s.initial, h) <= shift < At(s, h).shift
       case Purge(h) => me.stage.Idle? && Usable(s, h) && At(s, h).holder == -1
       case Unpurge => me.stage.Purging?
  }

  function WithHead(s: Grid, h: nat, x: Head): Grid {
    if h < |s.heads| then s.(heads := s.heads[h := x]) else s
  }

  function Unlocked(s: Grid, h: nat, t: nat): Grid {
    if At(s, h).holder == t then WithHead(s, h, At(s, h).(holder := -1)) else s
  }

  function To(s: Grid, t: nat, th: Thread): Grid
    requires t < |s.threads|
  {
    s.(threads := s.threads[t := th])
  }

  /** Not ready: the split of the next home to publish is not visible on the head of its old home. */
  predicate NotReady(s: Grid, me: Thread) {
    me.cur < me.g && me.cur >= 1 && At(s, OldHome(me.cur)).shift <= FloorLog2(me.cur)
  }

  ghost function Next(s: Grid, t: nat, a: Action): Grid
    requires Enabled(s, t, a)
  {
    var me := s.threads[t];
    match a
    case Reserve =>
      To(s, t, Thread(if s.frontier >= |s.heads| then Refused else Waiting, s.frontier, 0)).(frontier := s.frontier + 1)
    case GiveUp => To(s, t, me.(stage := Idle)).(frontier := |s.heads|)
    case Pass => To(s, t, me.(stage := Locking))
    case Acquire(empty) =>
      var from := OldHome(me.g);
      To(if empty then s else WithHead(s, from, At(s, from).(holder := t)), t, me.(stage := Splitting))
    case Reacquire =>
      var from := OldHome(me.g);
      To(WithHead(s, from, At(s, from).(holder := t)), t, me.(stage := Splitting))
    case Prepare(empty) =>
      To(WithHead(s, me.g, Head(FloorLog2(me.g) + 1, if empty then -1 else t)), t, me.(stage := Prepared))
    case Publish(empty) =>
      var from := OldHome(me.g);
      To(WithHead(s, from, Head(FloorLog2(me.g) + 1, if empty then -1 else t)), t, me.(stage := Published))
        .(published := s.published + {me.g})
    case ReleaseOne => To(Unlocked(s, me.g, t), t, me.(stage := HalfReleased))
    case ReleaseZero => To(Unlocked(s, OldHome(me.g), t), t, me.(stage := Loading))
    case Load => To(s, t, me.(stage := Looping, cur := s.length))
    case Look => To(s, t, me.(stage := if me.cur > me.g || NotReady(s, me) then Idle else Exchanging))
    case Exchange =>
      if s.length == me.cur then To(s, t, me.(stage := Looping, cur := me.cur + 1)).(length := me.cur + 1)
      else To(s, t, me.(stage := Looping, cur := s.length))
    case FallForward(h, shift) => To(s, t, Thread(Loading, Child(h, shift), 0))
    case Purge(h) => To(WithHead(s, h, At(s, h).(holder := t)), t, Thread(Purging, h, 0))
    case Unpurge => To(Unlocked(s, me.g, t), t, me.(stage := Idle))
  }

  // ---------------------------------------------------------------------------------------
  // Generations of a home

  /** The shift a home starts with. */
  function Base(initial: nat, h: nat): nat {
    if h < initial && initial >= 2 then HeadShift(initial, h) else if h >= 1 then FloorLog2(h) + 1 else 0
  }

  /** The home split off from `h` when its shift `k` is replaced. */
  function Child(h: nat, k: nat): nat { h + Pow2(k) }

  lemma BasePastLog(initial: nat, h: nat)
    requires initial >= 2
    ensures h >= 1 ==> FloorLog2(h) + 1 <= Base(initial, h)
  {
    if 1 <= h < initial && h < Pow2(FloorLog2(initial)) && FloorLog2(h) >= FloorLog2(initial) {
      Pow2Mono(FloorLog2(initial), FloorLog2(h));
      assert false;
    }
  }

  /** A home's children are the grow homes that it is the old home of. */
  lemma ChildIs(initial: nat, h: nat, k: nat)
    requires initial >= 2 && Base(initial, h) <= k
    ensures Child(h, k) >= initial && FloorLog2(Child(h, k)) == k && OldHome(Child(h, k)) == h
  {
    BasePastLog(initial, h);
    var s := FloorLog2(initial);
    if h >= 1 {
      Pow2Mono(FloorLog2(h) + 1, k);
    }
    assert h < Pow2(k);
    FloorLog2Unique(Child(h, k), k);
    if k > s {
      Pow2Mono(s + 1, k);
    } else if h >= initial {
    } else {
      assert k == s;
    }
  }

  /** The old home of a grow home has not started past the shift that the split replaces. */
  lemma OldHomeBase(initial: nat, g: nat)
    requires 2 <= initial <= g
    ensures Base(initial, OldHome(g)) <= FloorLog2(g) && Child(OldHome(g), FloorLog2(g)) == g && OldHome(g) < g
    ensures FloorLog2(g) >= 1
  {
    var k, s, from := FloorLog2(g), FloorLog2(initial), OldHome(g);
    LogMono(initial, g);
    LogMono(2, g);
    assert Pow2(1) == 2;
    FloorLog2Unique(2, 1);
    if from >= 1 && FloorLog2(from) >= k {
      Pow2Mono(k, FloorLog2(from));
      assert false;
    }
  }

  lemma LogMono(a: nat, b: nat)
    requires 1 <= a <= b
    ensures FloorLog2(a) <= FloorLog2(b)
  {
    if FloorLog2(b) < FloorLog2(a) {
      Pow2Mono(FloorLog2(b) + 1, FloorLog2(a));
      assert false;
    }
  }

  /** The old home is the elder home, or was itself split off from it one generation before. */
  lemma ElderFeeds(g: nat)
    requires g >= 2 && FloorLog2(g) >= 1
    ensures OldHome(g) == Elder(g) || OldHome(g) == Child(Elder(g), FloorLog2(g) - 1)
    ensures Elder(g) < Pow2(FloorLog2(g) - 1) && OldHome(g) < Pow2(FloorLog2(g))
  {
    var k := FloorLog2(g);
    var m, from := Pow2(k - 1), OldHome(g);
    assert Pow2(k) == 2 * m && g == from + 2 * m;
    if from < m {
      ModUnique(g, m, 2, from);
    } else {
      ModUnique(g, m, 3, from - m);
    }
  }

  // ---------------------------------------------------------------------------------------
  // Invariant

  /** A usable home has been split exactly for the shifts it has gone through; any other head is
      unused, or stored by the thread that is about to publish it. */
  ghost predicate HeadOk(s: Grid, h: nat) {
    if Usable(s, h) then
      && Base(s.initial, h) <= At(s, h).shift
      && forall k | Base(s.initial, h) <= k :: k < At(s, h).shift <==> Child(h, k) in s.published
    else At(s, h).shift == 0 || (h >= 1 && At(s, h).shift == FloorLog2(h) + 1)
  }

  ghost predicate HeadsOk(s: Grid) {
    forall h | 0 <= h < |s.heads| :: HeadOk(s, h)
  }

  ghost predicate PublishedOk(s: Grid) {
    forall p | p in s.published :: s.initial <= p < |s.heads| && p < s.frontier && p >= 1 && Usable(s, OldHome(p))
  }

  ghost predicate SizesOk(s: Grid) {
    && 2 <= s.initial <= s.length <= |s.heads| && s.initial <= s.frontier
    && forall p | s.initial <= p < s.length :: p in s.published
  }

  /** The old home's chain has exactly the shift that this split replaces. */
  ghost predicate Ready(s: Grid, g: nat) {
    g >= 1 && Usable(s, OldHome(g)) && At(s, OldHome(g)).shift == FloorLog2(g)
  }

  ghost predicate ThreadOk(s: Grid, th: Thread) {
    && (th.Unpublished() ==> s.initial <= th.g < |s.heads| && th.g < s.frontier && th.g !in s.published)
    && (th.stage.Locking? || th.stage.Splitting? || th.stage.Prepared? ==> Ready(s, th.g))
    && (th.stage.Prepared? ==> th.g >= 1 && At(s, th.g).shift == FloorLog2(th.g) + 1)
    && (th.Done() ==> th.g in s.published)
    && (th.stage.Looping? || th.stage.Exchanging? ==> s.initial <= th.cur <= s.length)
    && (th.stage.Exchanging? ==> th.cur <= th.g && th.cur in s.published)
    && (th.stage.Refused? ==> s.frontier >= |s.heads|)
    && (th.stage.Purging? ==> Usable(s, th.g))
  }

  ghost predicate ThreadsOk(s: Grid) {
    && (forall t | 0 <= t < |s.threads| :: ThreadOk(s, s.threads[t]))
    && forall t, u | 0 <= t < u < |s.threads| && s.threads[t].Unpublished()
        && s.threads[u].Unpublished() :: s.threads[t].g != s.threads[u].g
  }

  ghost predicate OnItsWay(s: Grid, t: nat, g: nat) { t < |s.threads| && s.threads[t].Unpublished()
      && s.threads[t].g == g }

  /** Every grow home taken so far is published, or some thread is on its way to publish it. */
  ghost predicate Covered(s: Grid) {
    forall g | s.initial <= g < s.frontier && g < |s.heads| && g !in s.published :: exists t :: OnItsWay(s, t, g)
  }

  /** Where a thread that holds the lock of `h` can be. Without the lock of the old home's chain, which is
      then empty, a thread splits nothing off. */
  ghost predicate Holds(s: Grid, t: nat, h: nat)
    requires t < |s.threads|
  {
    var th := s.threads[t];
    match th.stage
    case Splitting => th.g >= 1 && (h == OldHome(th.g) || (h == th.g && At(s, OldHome(th.g)).holder == t))
    case Prepared => th.g >= 1 && (h == OldHome(th.g) || (h == th.g && At(s, OldHome(th.g)).holder == t))
    case Published => th.g >= 1 && (h == OldHome(th.g) || h == th.g)
    case HalfReleased => th.g >= 1 && h == OldHome(th.g)
    case Purging => h == th.g
    case _ => false
  }

  ghost predicate HolderOk(s: Grid, h: nat) {
    At(s, h).holder == -1 || (0 <= At(s, h).holder < |s.threads| && Holds(s, At(s, h).holder, h))
  }

  ghost predicate LocksOk(s: Grid) {
    forall h | 0 <= h < |s.heads| :: HolderOk(s, h)
  }

  ghost predicate Inv(s: Grid) {
    SizesOk(s) && PublishedOk(s) && HeadsOk(s) && ThreadsOk(s) && Covered(s) && LocksOk(s)
  }

  /** The wait before a split is enough: the old home then has the very shift to be replaced. */
  lemma WaitIsEnough(s: Grid, g: nat)
    requires SizesOk(s) && PublishedOk(s) && HeadsOk(s) && s.initial <= g < |s.heads| && g !in s.published
    requires At(s, Elder(g)).shift >= FloorLog2(g)
    ensures Ready(s, g)
  {
    hide FloorLog2, HeadShift, Pow2, OldHome, Child, Base;
    OldHomeBase(s.initial, g);
    ElderFeeds(g);
    var k, elder, from := FloorLog2(g), Elder(g), OldHome(g);
    assert HeadOk(s, elder) && HeadOk(s, from);
    SmallLog(elder, k - 1);
    if from != elder {
      if Base(s.initial, elder) > k - 1 {
        ElderBase(s.initial, elder, k - 1);
      }
      SmallLog(from, k);
      BasePastLog(s.initial, from);
      if Base(s.initial, elder) <= k - 1 {
        assert Child(elder, k - 1) in s.published;
      }
      LogOf(elder, k - 1);
    }
    if At(s, from).shift > k {
      assert false;
    }
  }

  lemma SmallLog(h: nat, k: nat)
    requires h < Pow2(k)
    ensures h >= 1 ==> FloorLog2(h) < k
  {
    if h >= 1 && FloorLog2(h) >= k {
      Pow2Mono(k, FloorLog2(h));
      assert false;
    }
  }

  lemma LogOf(h: nat, k: nat)
    requires h < Pow2(k)
    ensures FloorLog2(Child(h, k)) == k
  {
    FloorLog2Unique(Child(h, k), k);
  }

  /** A home that started past shift `k` did so because its child was there from the start. */
  lemma ElderBase(initial: nat, h: nat, k: nat)
    requires initial >= 2 && h < Pow2(k) && Base(initial, h) > k
    ensures Child(h, k) < initial
  {
    var s := FloorLog2(initial);
    SmallLog(h, k);
    if k < s {
      Pow2Mono(k + 1, s);
    } else {
      Pow2Mono(s, k);
    }
  }

  // ---------------------------------------------------------------------------------------
  // Every step keeps the invariant

  lemma PublishHeads(s: Grid, t: nat, empty: bool)
    requires Inv(s) && Enabled(s, t, Publish(empty))
    ensures HeadsOk(Next(s, t, Publish(empty))) && PublishedOk(Next(s, t, Publish(empty)))
  {
    hide FloorLog2, HeadShift, Pow2, OldHome, Child, Base, Covered, LocksOk;
    var g, n := s.threads[t].g, Next(s, t, Publish(empty));
    assert ThreadOk(s, s.threads[t]);
    OldHomeBase(s.initial, g);
    var from, shift := OldHome(g), FloorLog2(g);
    forall h | 0 <= h < |n.heads| ensures HeadOk(n, h) {
      assert HeadOk(s, h);
      forall k | Base(s.initial, h) <= k ensures Child(h, k) == g <==> h == from && k == shift {
        ChildIs(s.initial, h, k);
      }
      if h == g {
        forall k | Base(s.initial, h) <= k ensures Child(h, k) !in s.published {
          ChildIs(s.initial, h, k);
        }
        StartsAt(s.initial, g);
      }
    }
  }

  lemma StartsAt(initial: nat, g: nat)
    requires 2 <= initial <= g
    ensures Base(initial, g) == FloorLog2(g) + 1
  {
  }

  /** Steps other than a publication leave every shift alone, but for the head that only its splitter knows. */
  lemma OtherHeads(s: Grid, t: nat, a: Action)
    requires Inv(s) && Enabled(s, t, a) && !a.Publish?
    ensures HeadsOk(Next(s, t, a)) && PublishedOk(Next(s, t, a))
    ensures forall h: nat ::
        At(Next(s, t, a), h).shift == if a.Prepare? && h == s.threads[t].g then FloorLog2(h) + 1 else At(s, h).shift
  {
    hide FloorLog2, HeadShift, Pow2, OldHome, Child, Base, Covered, LocksOk;
    var n := Next(s, t, a);
    assert ThreadOk(s, s.threads[t]);
    forall h | 0 <= h < |n.heads| ensures HeadOk(n, h) {
      assert HeadOk(s, h);
    }
  }

  lemma SizesKept(s: Grid, t: nat, a: Action)
    requires Inv(s) && Enabled(s, t, a)
    ensures SizesOk(Next(s, t, a)) && s.length <= Next(s, t, a).length
  {
    hide FloorLog2, HeadShift, Pow2, OldHome, Child, Base, Covered, LocksOk, HeadsOk;
    assert ThreadOk(s, s.threads[t]);
  }

  /** What another thread has established stays so. */
  lemma OtherThread(s: Grid, t: nat, a: Action, u: nat)
    requires Inv(s) && Enabled(s, t, a) && u < |s.threads| && u != t
    ensures ThreadOk(Next(s, t, a), s.threads[u])
  {
    hide FloorLog2, HeadShift, Pow2, OldHome, Child, Base, Covered, LocksOk, HeadsOk, PublishedOk;
    assert ThreadOk(s, s.threads[t]) && ThreadOk(s, s.threads[u]);
    if a.Publish? {
      var g, g' := s.threads[t].g, s.threads[u].g;
      if s.threads[u].Unpublished() {
        OldHomeBase(s.initial, g);
        OldHomeBase(s.initial, g');
      }
    } else {
      OtherHeads(s, t, a);
    }
  }

  lemma OwnThread(s: Grid, t: nat, a: Action)
    requires Inv(s) && Enabled(s, t, a)
    ensures ThreadOk(Next(s, t, a), Next(s, t, a).threads[t])
  {
    hide FloorLog2, HeadShift, Pow2, OldHome, Child, Base, Covered, LocksOk;
    var me := s.threads[t];
    assert ThreadOk(s, me);
    if a.Pass? {
      WaitIsEnough(s, me.g);
    } else if a.FallForward? {
      assert HeadOk(s, a.h);
    } else if a.Look? && me.cur <= me.g {
      LookTells(s, me);
    }
  }

  /** The head that a catch-up looks at tells exactly whether the next home is published. */
  lemma LookTells(s: Grid, me: Thread)
    requires SizesOk(s) && PublishedOk(s) && HeadsOk(s) && ThreadOk(s, me) && me.stage.Looping? && me.cur <= me.g
    ensures NotReady(s, me) <==> me.cur !in s.published
  {
    hide FloorLog2, HeadShift, Pow2, OldHome, Child, Base;
    OldHomeBase(s.initial, me.cur);
    assert Usable(s, OldHome(me.cur));
    assert HeadOk(s, OldHome(me.cur));
  }

  lemma ThreadsKept(s: Grid, t: nat, a: Action)
    requires Inv(s) && Enabled(s, t, a)
    ensures ThreadsOk(Next(s, t, a))
  {
    hide FloorLog2, HeadShift, Pow2, OldHome, Child, Base, Covered, LocksOk, HeadsOk, PublishedOk, ThreadOk;
    var n := Next(s, t, a);
    assert n.threads == s.threads[t := n.threads[t]];
    forall u | 0 <= u < |n.threads| ensures ThreadOk(n, n.threads[u]) {
      if u == t {
        OwnThread(s, t, a);
      } else {
        OtherThread(s, t, a, u);
      }
    }
    forall u | 0 <= u < |s.threads| && s.threads[u].Unpublished() ensures s.threads[u].g < s.frontier {
      assert ThreadOk(s, s.threads[u]);
      Behind(s, s.threads[u]);
    }
  }

  lemma Behind(s: Grid, th: Thread)
    requires ThreadOk(s, th) && th.Unpublished()
    ensures th.g < s.frontier
  {
  }

  lemma CoveredKept(s: Grid, t: nat, a: Action)
    requires Inv(s) && Enabled(s, t, a)
    ensures Covered(Next(s, t, a))
  {
    hide FloorLog2, HeadShift, Pow2, OldHome, Child, Base, LocksOk, HeadsOk, PublishedOk;
    var n := Next(s, t, a);
    assert ThreadOk(s, s.threads[t]);
    forall g | n.initial <= g < n.frontier && g < |n.heads| && g !in n.published ensures exists u :: OnItsWay(n, u, g) {
      if a.Reserve? && g == s.frontier {
        assert OnItsWay(n, t, g);
      } else {
        var u :| OnItsWay(s, u, g);
        assert OnItsWay(n, u, g);
      }
    }
  }

  /** A head that another thread has locked is not the one that a splitter keeps to itself. */
  lemma LockedElsewhere(s: Grid, t: nat, h: nat)
    requires Inv(s) && t < |s.threads| && s.threads[t].Unpublished() && h < |s.heads| && s.heads[h].holder != -1
        && s.heads[h].holder != t
    ensures h != s.threads[t].g
  {
    hide FloorLog2, HeadShift, Pow2, OldHome, Base, Covered, HeadsOk;
    var u := s.heads[h].holder;
    assert HolderOk(s, h) && ThreadOk(s, s.threads[t]) && ThreadOk(s, s.threads[u]);
  }

  /** No step takes a lock away from another thread. */
  lemma OthersLock(s: Grid, t: nat, a: Action, h: nat)
    requires Inv(s) && Enabled(s, t, a) && h < |s.heads| && s.heads[h].holder != -1 && s.heads[h].holder != t
    ensures Next(s, t, a).heads[h].holder == s.heads[h].holder
  {
    hide FloorLog2, HeadShift, Pow2, OldHome, Base, Covered, HeadsOk, PublishedOk, ThreadsOk, LocksOk, SizesOk;
    if a.Prepare? {
      LockedElsewhere(s, t, h);
    }
  }

  lemma OthersHold(s: Grid, t: nat, a: Action, h: nat)
    requires Inv(s) && Enabled(s, t, a) && h < |s.heads| && s.heads[h].holder != -1 && s.heads[h].holder != t
    ensures HolderOk(Next(s, t, a), h)
  {
    hide FloorLog2, HeadShift, Pow2, OldHome, Base, Covered, HeadsOk, PublishedOk, Enabled;
    var u := s.heads[h].holder;
    assert HolderOk(s, h) && ThreadOk(s, s.threads[u]);
    OthersLock(s, t, a, h);
    OnlyOwn(s, t, a, u);
    var g := s.threads[u].g;
    if (s.threads[u].stage.Splitting? || s.threads[u].stage.Prepared?) && h == g {
      OldInRange(s, g);
      OthersLock(s, t, a, OldHome(g));
    }
  }

  lemma OldInRange(s: Grid, g: nat)
    requires SizesOk(s) && s.initial <= g < |s.heads|
    ensures OldHome(g) < |s.heads|
  {
    hide FloorLog2, Pow2;
    OldHomeBase(s.initial, g);
  }

  lemma OnlyOwn(s: Grid, t: nat, a: Action, u: nat)
    requires Enabled(s, t, a) && u < |s.threads| && u != t
    ensures |Next(s, t, a).threads| == |s.threads| && Next(s, t, a).threads[u] == s.threads[u]
        && |Next(s, t, a).heads| == |s.heads|
  {
  }

  lemma OwnHold(s: Grid, t: nat, a: Action, h: nat)
    requires Inv(s) && Enabled(s, t, a) && h < |s.heads| && (s.heads[h].holder == -1 || s.heads[h].holder == t)
    ensures HolderOk(Next(s, t, a), h)
  {
    hide FloorLog2, HeadShift, Pow2, OldHome, Base, Covered, HeadsOk, PublishedOk;
    assert HolderOk(s, h) && ThreadOk(s, s.threads[t]);
    if s.threads[t].Unpublished() {
      OldInRange(s, s.threads[t].g);
    }
  }

  lemma LocksKept(s: Grid, t: nat, a: Action)
    requires Inv(s) && Enabled(s, t, a)
    ensures LocksOk(Next(s, t, a))
  {
    hide HolderOk, Inv;
    assert |Next(s, t, a).heads| == |s.heads|;
    forall h | 0 <= h < |Next(s, t, a).heads| ensures HolderOk(Next(s, t, a), h) {
      if s.heads[h].holder == -1 || s.heads[h].holder == t {
        OwnHold(s, t, a, h);
      } else {
        OthersHold(s, t, a, h);
      }
    }
  }

  lemma StepKeepsInv(s: Grid, t: nat, a: Action)
    requires Inv(s) && Enabled(s, t, a)
    ensures Inv(Next(s, t, a)) && s.length <= Next(s, t, a).length
  {
    hide Next, Enabled, SizesOk, PublishedOk, HeadsOk, ThreadsOk, Covered, LocksOk;
    SizesKept(s, t, a);
    if a.Publish? {
      PublishHeads(s, t, a.empty);
    } else {
      OtherHeads(s, t, a);
    }
    ThreadsKept(s, t, a);
    CoveredKept(s, t, a);
    LocksKept(s, t, a);
  }

  // ---------------------------------------------------------------------------------------
  // Whole runs, under any interleaving

  function StartHead(initial: nat, h: nat): Head
    requires initial >= 2
  {
    Head(if h < initial then HeadShift(initial, h) else 0, -1)
  }

  ghost predicate Init(s: Grid) {
    && 2 <= s.initial == s.frontier == s.length <= |s.heads| && s.published == {}
    && (forall h | 0 <= h < |s.heads| :: s.heads[h] == StartHead(s.initial, h))
    && forall t | 0 <= t < |s.threads| :: s.threads[t].stage.Idle?
  }

  datatype Event = Event(thread: nat, action: Action)

  ghost predicate IsStep(s: Grid, e: Event, s': Grid) {
    Enabled(s, e.thread, e.action) && s' == Next(s, e.thread, e.action)
  }

  ghost predicate IsRun(run: seq<Grid>, events: seq<Event>) {
    && |run| == |events| + 1 && Init(run[0])
    && forall i | 0 <= i < |events| :: IsStep(run[i], events[i], run[i + 1])
  }

  lemma InitOk(s: Grid)
    requires Init(s)
    ensures Inv(s)
  {
    hide FloorLog2, HeadShift, Pow2, OldHome;
    forall h | 0 <= h < |s.heads| ensures HeadOk(s, h) {
      assert s.heads[h] == StartHead(s.initial, h);
    }
  }

  /** At every moment of every run: the published length counts only homes whose split is visible; every
      home has been split exactly for the shifts it went through; a thread that splits finds on its old
      home the very shift it replaces, and no two threads have the same grow home; and whoever holds a
      chain's rewrite lock is at a point where it rewrites that chain. */
  lemma {:induction false} EveryMoment(run: seq<Grid>, events: seq<Event>, i: nat)
    requires IsRun(run, events) && i < |run|
    ensures Inv(run[i])
  {
    hide Inv, Init, Enabled, Next;
    if i == 0 {
      InitOk(run[0]);
    } else {
      EveryMoment(run, events, i - 1);
      assert IsStep(run[i - 1], events[i - 1], run[i - 1 + 1]);
      StepKeepsInv(run[i - 1], events[i - 1].thread, events[i - 1].action);
    }
  }

  /** What a split relies on when it starts, and when it exchanges the old head. */
  lemma SplitsStartRight(run: seq<Grid>, events: seq<Event>, i: nat, t: nat)
    requires IsRun(run, events) && i < |run| && t < |run[i].threads|
    requires var st := run[i].threads[t].stage; st.Splitting? || st.Prepared?
    ensures var s, g := run[i], run[i].threads[t].g;
      && g >= 1 && s.length <= g && g !in s.published && At(s, OldHome(g)).shift == FloorLog2(g)
      && forall u | 0 <= u < |s.threads| && u != t && s.threads[u].Unpublished() :: s.threads[u].g != g
  {
    hide IsRun, FloorLog2, OldHome, HeadsOk, PublishedOk, Covered, LocksOk;
    EveryMoment(run, events, i);
    assert ThreadOk(run[i], run[i].threads[t]);
  }

  // ---------------------------------------------------------------------------------------
  // Finding a home from a published length

  /** A hash's home under some shift, with a head that has reached at least that shift. */
  ghost predicate OnTheWay(s: Grid, hash: nat, shift: nat) {
    var h := HomeAt(hash, shift);
    Usable(s, h) && Base(s.initial, h) <= shift <= At(s, h).shift
  }

  /** A length that has been published gives every hash a home in use, under a shift that its head has. */
  lemma PublishedHome(s: Grid, hash: nat)
    requires Inv(s)
    ensures s.length >= 2 && OnTheWay(s, hash, ShiftOf(s.length, hash))
  {
    hide HeadShift, HomeOf, ShiftOf, HomeAt, FloorLog2, OldHome, Pow2, Child, ThreadsOk, Covered, LocksOk;
    var h, k := HomeOf(s.length, hash), ShiftOf(s.length, hash);
    HomeInRange(s.length, hash);
    IsHome(s.length, hash);
    assert HeadOk(s, h);
    ShiftReached(s.initial, s.length, h);
    if At(s, h).shift < k {
      ChildIs(s.initial, h, k - 1);
      assert false;
    }
  }

  lemma IsHome(length: nat, hash: nat)
    requires length >= 2
    ensures HomeOf(length, hash) == HomeAt(hash, ShiftOf(length, hash))
  {
  }

  lemma BaseReached(initial: nat, length: nat, h: nat)
    requires 2 <= initial <= length && h < length
    ensures Base(initial, h) <= HeadShift(length, h)
  {
    hide FloorLog2, Pow2;
    var s, l := FloorLog2(initial), FloorLog2(length);
    LogMono(initial, length);
    if h >= 1 {
      LogMono(h, length);
    }
    if s < l {
      Pow2Mono(s + 1, l);
    }
    if h >= 1 && h < Pow2(l) {
      SmallLog(h, l);
    }
  }

  lemma Doubles(k: nat)
    ensures Pow2(k + 1) == 2 * Pow2(k)
  {
  }

  /** The shift that a length implies for a home: its first one, or the one after splitting off a home
      within that length. */
  lemma ShiftReached(initial: nat, length: nat, h: nat)
    requires 2 <= initial <= length && h < length
    ensures Base(initial, h) <= HeadShift(length, h)
    ensures HeadShift(length, h) == Base(initial, h) || (HeadShift(length, h) >= 1
        && Base(initial, h) <= HeadShift(length, h) - 1 && Child(h, HeadShift(length, h) - 1) < length)
  {
    hide FloorLog2, Pow2, Base;
    var l := FloorLog2(length);
    BaseReached(initial, length, h);
    BasePastLog(initial, h);
    if h >= Pow2(l) {
      FloorLog2Unique(h, l);
    } else if HeadShift(length, h) == l && Base(initial, h) < l {
      Doubles(l - 1);
      if h >= Pow2(l - 1) {
        FloorLog2Unique(h, l - 1);
        assert false;
      }
    }
  }

  /** Steps of any thread leave the home on the way. */
  lemma StaysOnTheWay(s: Grid, t: nat, a: Action, hash: nat, shift: nat)
    requires Inv(s) && Enabled(s, t, a) && OnTheWay(s, hash, shift)
    ensures OnTheWay(Next(s, t, a), hash, shift) && Next(s, t, a).initial == s.initial
  {
    hide FloorLog2, HeadShift, Pow2, OldHome, Child, Base, HomeAt, Covered, LocksOk, HeadsOk, PublishedOk;
    assert ThreadOk(s, s.threads[t]);
    if !a.Publish? {
      OtherHeads(s, t, a);
    }
  }

  /** If the head has gone past the shift, the home split off then is in use, and so the hash's home under
      one more bit is on the way too. */
  lemma FallsForward(s: Grid, hash: nat, shift: nat)
    requires Inv(s) && OnTheWay(s, hash, shift) && At(s, HomeAt(hash, shift)).shift > shift
    ensures Child(HomeAt(hash, shift), shift) in s.published && OnTheWay(s, hash, shift + 1)
  {
    hide FloorLog2, HeadShift, OldHome, Base, ThreadsOk, Covered, LocksOk;
    var h := HomeAt(hash, shift);
    assert HeadOk(s, h);
    ChildIs(s.initial, h, shift);
    ModDouble(hash, Pow2(shift));
    var h' := HomeAt(hash, shift + 1);
    assert h' == h || h' == Child(h, shift);
    if h' != h {
      StartsAt(s.initial, h');
      assert HeadOk(s, h');
    }
  }

  /** The loop that insert, lookup and purge share: start from a published length; at every later read of
      a head that has gone past the shift, take one more bit. */
  ghost predicate Follows(run: seq<Grid>, hash: nat, times: seq<nat>, shifts: seq<nat>) {
    && |times| == |shifts| > 0 && (forall j | 0 <= j < |times| :: times[j] < |run|)
    && run[times[0]].length >= 2 && shifts[0] == ShiftOf(run[times[0]].length, hash)
    && forall j | 0 < j < |times| :: NextRead(run, hash, times, shifts, j)
  }

  ghost predicate NextRead(run: seq<Grid>, hash: nat, times: seq<nat>, shifts: seq<nat>, j: nat)
    requires |times| == |shifts| && 0 < j < |times| && forall j | 0 <= j < |times| :: times[j] < |run|
  {
    times[j - 1] <= times[j] && shifts[j] == shifts[j - 1] + 1
        && At(run[times[j]], HomeAt(hash, shifts[j - 1])).shift > shifts[j - 1]
  }

  lemma {:induction false} WayThroughTime(run: seq<Grid>, events: seq<Event>, hash: nat, shift: nat, i: nat, j: nat)
    requires IsRun(run, events) && i <= j < |run| && OnTheWay(run[i], hash, shift)
    ensures OnTheWay(run[j], hash, shift)
    decreases j - i
  {
    hide OnTheWay, Inv, Enabled, Next, Init;
    if i < j {
      WayThroughTime(run, events, hash, shift, i, j - 1);
      EveryMoment(run, events, j - 1);
      assert IsStep(run[j - 1], events[j - 1], run[j - 1 + 1]);
      StaysOnTheWay(run[j - 1], events[j - 1].thread, events[j - 1].action, hash, shift);
    }
  }

  /** However the table grows meanwhile, an operation that starts from a length once published only meets
      homes in use, whose heads never have a smaller shift than its own. */
  lemma {:induction false} NeverTooEarly(run: seq<Grid>, events: seq<Event>, hash: nat, times: seq<nat>,
      shifts: seq<nat>, k: nat)
    requires IsRun(run, events) && Follows(run, hash, times, shifts) && k < |times|
    ensures OnTheWay(run[times[k]], hash, shifts[k])
  {
    hide OnTheWay, Inv, IsRun, HomeAt, ShiftOf;
    EveryMoment(run, events, times[k]);
    if k == 0 {
      PublishedHome(run[times[0]], hash);
    } else {
      NeverTooEarly(run, events, hash, times, shifts, k - 1);
      assert NextRead(run, hash, times, shifts, k);
      WayThroughTime(run, events, hash, shifts[k - 1], times[k - 1], times[k]);
      FallsForward(run[times[k]], hash, shifts[k - 1]);
    }
  }

  // ---------------------------------------------------------------------------------------
  // Nobody waits forever

  /** A thread that waits for a shift waits for a smaller grow home that is on its way. */
  lemma WaitsForSmaller(s: Grid, g: nat)
    requires Inv(s) && s.initial <= g < s.frontier && g < |s.heads| && g !in s.published
        && At(s, Elder(g)).shift < FloorLog2(g)
    ensures exists u: nat :: u < |s.threads| && s.threads[u].Unpublished() && s.threads[u].g < g
  {
    hide HeadShift, OldHome, Child, Base, ThreadsOk, LocksOk, FloorLog2, Pow2;
    OldHomeBase(s.initial, g);
    ElderFeeds(g);
    var k, elder := FloorLog2(g), Elder(g);
    HalfLess(g);
    var c := Child(elder, k - 1);
    assert HeadOk(s, elder);
    SmallLog(elder, k - 1);
    var next := if Usable(s, elder) then c else elder;
    if Usable(s, elder) {
      if Base(s.initial, elder) <= k - 1 {
        ChildIs(s.initial, elder, k - 1);
        assert c !in s.published;
      } else {
        assert false;
      }
    }
    var u :| OnItsWay(s, u, next);
  }

  lemma HalfLess(g: nat)
    requires g >= 2 && FloorLog2(g) >= 1
    ensures Child(Elder(g), FloorLog2(g) - 1) < g && Elder(g) < g
  {
    ElderFeeds(g);
    assert Pow2(FloorLog2(g)) == 2 * Pow2(FloorLog2(g) - 1);
  }

  /** Some thread that is under way can make a step, whatever the state: the smallest grow home still to
      be published never waits for another, and a lock is held only by a thread that can go on. */
  lemma NoDeadlock(s: Grid, t: nat) returns (u: nat, a: Action)
    requires Inv(s) && t < |s.threads| && !s.threads[t].stage.Idle?
    ensures Enabled(s, u, a) && !s.threads[u].stage.Idle?
    decreases s.threads[t].Unpublished(), s.threads[t].g
  {
    hide HeadShift, OldHome, Child, Base, FloorLog2, Pow2, Covered, HeadsOk, PublishedOk, Elder;
    var me := s.threads[t];
    assert ThreadOk(s, me);
    u := t;
    match me.stage {
      case Refused => a := GiveUp;
      case Published => a := ReleaseOne;
      case HalfReleased =>
        a := ReleaseZero;
        DoneRange(s, me);
      case Loading => a := Load;
      case Looping => a := Look;
      case Exchanging => a := Exchange;
      case Purging => a := Unpurge;
      case Splitting => a := Prepare(true);
      case Prepared =>
        OldHomeBase(s.initial, me.g);
        var h := At(s, OldHome(me.g)).holder;
        if h == t {
          a := Publish(false);
        } else if h == -1 {
          a := Reacquire;
        } else {
          assert HolderOk(s, OldHome(me.g));
          u, a := HolderGoesOn(s, OldHome(me.g));
        }
      case Locking =>
        OldHomeBase(s.initial, me.g);
        if At(s, OldHome(me.g)).holder == -1 {
          a := Acquire(true);
        } else {
          assert HolderOk(s, OldHome(me.g));
          u, a := HolderGoesOn(s, OldHome(me.g));
        }
      case Waiting =>
        ElderInRange(s, me.g);
        if At(s, Elder(me.g)).holder != -1 {
          assert HolderOk(s, Elder(me.g));
          u, a := HolderGoesOn(s, Elder(me.g));
        } else if At(s, Elder(me.g)).shift >= FloorLog2(me.g) {
          a := Pass;
        } else {
          WaitsForSmaller(s, me.g);
          var v: nat :| v < |s.threads| && s.threads[v].Unpublished() && s.threads[v].g < me.g;
          u, a := NoDeadlock(s, v);
        }
    }
  }

  lemma DoneRange(s: Grid, me: Thread)
    requires Inv(s) && ThreadOk(s, me) && me.Done()
    ensures me.g >= 1
  {
  }

  lemma ElderInRange(s: Grid, g: nat)
    requires SizesOk(s) && s.initial <= g < |s.heads|
    ensures g >= 2 && Elder(g) < |s.heads|
  {
    hide FloorLog2, Pow2;
    OldHomeBase(s.initial, g);
    HalfLess(g);
  }

  /** Who holds the lock of a chain can go on. */
  lemma HolderGoesOn(s: Grid, h: nat) returns (u: nat, a: Action)
    requires Inv(s) && h < |s.heads| && s.heads[h].holder != -1
    ensures Enabled(s, u, a) && !s.threads[u].stage.Idle?
  {
    hide HeadShift, OldHome, Child, Base, FloorLog2, Pow2, Covered, HeadsOk, PublishedOk;
    assert HolderOk(s, h);
    u := s.heads[h].holder;
    var me := s.threads[u];
    assert ThreadOk(s, me);
    match me.stage {
      case Splitting => a := Prepare(true);
      case Prepared => a := Publish(false);
      case Published => a := ReleaseOne;
      case HalfReleased => a := ReleaseZero;
      case Purging => a := Unpurge;
    }
  }

  // ---------------------------------------------------------------------------------------
  // The published length

  /** A catch-up stops short of the home it knows exactly when the next home is not published yet. */
  lemma StopsShort(s: Grid, t: nat)
    requires Inv(s) && Enabled(s, t, Look) && s.threads[t].cur <= s.threads[t].g
    ensures Next(s, t, Look).threads[t].stage.Idle? <==> s.threads[t].cur !in s.published
  {
    hide HeadShift, OldHome, Child, Base, FloorLog2, Pow2, Covered, HeadsOk, PublishedOk, LocksOk;
    assert ThreadOk(s, s.threads[t]);
    LookTells(s, s.threads[t]);
  }

  /** A step in which a catch-up stops short. */
  ghost predicate ShortStop(s: Grid, e: Event) {
    && e.action.Look? && e.thread < |s.threads| && s.threads[e.thread].stage.Looping?
    && s.threads[e.thread].cur <= s.threads[e.thread].g && NotReady(s, s.threads[e.thread])
  }

  ghost predicate Publishing(s: Grid, t: nat, p: nat) { t < |s.threads| && s.threads[t].Done() && s.threads[t].g == p }

  /** Every home in use is covered by the published length, or some thread is about to see to that. */
  ghost predicate Pursued(s: Grid) {
    forall p | p in s.published :: p < s.length || exists t :: Publishing(s, t, p)
  }

  lemma StaysPursued(s: Grid, t: nat, a: Action)
    requires Inv(s) && Enabled(s, t, a) && Pursued(s) && !ShortStop(s, Event(t, a))
    ensures Pursued(Next(s, t, a))
  {
    hide HeadShift, OldHome, Child, Base, FloorLog2, Pow2, Covered, HeadsOk, PublishedOk, LocksOk;
    var n := Next(s, t, a);
    assert ThreadOk(s, s.threads[t]);
    forall p | p in n.published ensures p < n.length || exists u :: Publishing(n, u, p) {
      if p !in s.published {
        assert Publishing(n, t, p);
      } else if p >= s.length {
        var u :| Publishing(s, u, p);
        assert p < n.length || Publishing(n, u, p);
      }
    }
  }

  lemma {:induction false} CatchesUp(run: seq<Grid>, events: seq<Event>, i: nat)
    requires IsRun(run, events) && i < |run| && forall j | 0 <= j < |events| :: !ShortStop(run[j], events[j])
    ensures Pursued(run[i])
  {
    hide Inv, Enabled, Next, ShortStop;
    if i > 0 {
      CatchesUp(run, events, i - 1);
      EveryMoment(run, events, i - 1);
      assert IsStep(run[i - 1], events[i - 1], run[i - 1 + 1]);
      assert events[i - 1] == Event(events[i - 1].thread, events[i - 1].action);
      StaysPursued(run[i - 1], events[i - 1].thread, events[i - 1].action);
    }
  }

  /** The published length lags behind the homes in use at rest only if some catch-up stopped short. */
  lemma UpToDate(run: seq<Grid>, events: seq<Event>, i: nat, h: nat)
    requires IsRun(run, events) && i < |run| && forall j | 0 <= j < |events| :: !ShortStop(run[j], events[j])
    requires forall t | 0 <= t < |run[i].threads| :: run[i].threads[t].stage.Idle?
    ensures Usable(run[i], h) <==> h < run[i].length
  {
    hide HeadsOk, ThreadsOk, Covered, LocksOk, PublishedOk, IsRun, ShortStop;
    CatchesUp(run, events, i);
    EveryMoment(run, events, i);
  }

  lemma Extend(run: seq<Grid>, events: seq<Event>, t: nat, a: Action) returns (run': seq<Grid>, events': seq<Event>)
    requires IsRun(run, events) && Enabled(run[|events|], t, a)
    ensures IsRun(run', events') && run'[|events'|] == Next(run[|events|], t, a)
  {
    hide Enabled, Next, Init;
    run', events' := run + [Next(run[|events|], t, a)], events + [Event(t, a)];
    forall i | 0 <= i < |events'| ensures IsStep(run'[i], events'[i], run'[i + 1]) {
      if i < |events| {
        assert IsStep(run[i], events[i], run[i + 1]);
      }
    }
  }

  lemma SmallHomes()
    ensures FloorLog2(2) == FloorLog2(3) == 1 && Pow2(0) == 1 && Pow2(1) == 2
    ensures OldHome(2) == 0 && OldHome(3) == 1 && Elder(2) == 0 && Elder(3) == 0
        && HeadShift(2, 0) == HeadShift(2, 1) == 1
  {
    assert Pow2(1) == 2 * Pow2(0) && Pow2(2) == 2 * Pow2(1);
    FloorLog2Unique(2, 1);
    FloorLog2Unique(3, 1);
  }

  function Heads(a: nat, b: nat, c: nat, d: nat): seq<Head> { [Head(a, -1), Head(b, -1), Head(c, -1), Head(d, -1)] }

  ghost predicate Unlocked4(s: Grid, t: nat, stage: Stage) {
    && t < |s.threads| && s.threads[t].stage == stage && s.threads[t].g in {2, 3}
    && |s.heads| == 4 && forall h | 0 <= h < 4 :: s.heads[h].holder == -1
  }

  /** Splitting an empty chain. */
  lemma SplitEmpty(run: seq<Grid>, events: seq<Event>, t: nat) returns (run': seq<Grid>, events': seq<Event>)
    requires IsRun(run, events) && Unlocked4(run[|events|], t, Waiting) && run[|events|].heads[0].shift >= 1
    ensures IsRun(run', events')
    ensures var s, me := run[|events|], run[|events|].threads[t];
      run'[|events'|] == s.(heads := s.heads[me.g := Head(2, -1)][me.g - 2 := Head(2, -1)],
          published := s.published + {me.g},
                            threads := s.threads[t := me.(stage := Published)])
  {
    hide IsStep, Init, FloorLog2, Pow2, OldHome, Elder;
    SmallHomes();
    var me := run[|events|].threads[t];
    run', events' := Extend(run, events, t, Pass);
    assert run'[|events'|].threads[t] == me.(stage := Locking);
    run', events' := Extend(run', events', t, Acquire(true));
    assert run'[|events'|].threads[t] == me.(stage := Splitting);
    run', events' := Extend(run', events', t, Prepare(true));
    assert run'[|events'|].threads[t] == me.(stage := Prepared);
    run', events' := Extend(run', events', t, Publish(true));
  }

  lemma LoadAfter(run: seq<Grid>, events: seq<Event>, t: nat) returns (run': seq<Grid>, events': seq<Event>)
    requires IsRun(run, events) && Unlocked4(run[|events|], t, Published)
    ensures IsRun(run', events')
    ensures var s, me := run[|events|], run[|events|].threads[t];
      run'[|events'|] == s.(threads := s.threads[t := Thread(Looping, me.g, s.length)])
  {
    hide IsStep, Init, FloorLog2, Pow2, OldHome, Elder;
    SmallHomes();
    run', events' := Extend(run, events, t, ReleaseOne);
    assert run'[|events'|].heads == run[|events|].heads;
    run', events' := Extend(run', events', t, ReleaseZero);
    assert run'[|events'|].heads == run[|events|].heads;
    run', events' := Extend(run', events', t, Load);
  }

  const BOTH_WAIT := Grid(2, Heads(1, 1, 0, 0), 4, 2, {}, [Thread(Waiting, 2, 0), Thread(Waiting, 3, 0)])
  const LATER_DONE := Grid(2, Heads(1, 2, 0, 2), 4, 2, {3}, [Thread(Waiting, 2, 0), Thread(Idle, 3, 2)])
  const BOTH_DONE := Grid(2, Heads(2, 2, 2, 2), 4, 3, {2, 3}, [Thread(Idle, 2, 3), Thread(Idle, 3, 2)])

  lemma TakeHomes() returns (run: seq<Grid>, events: seq<Event>)
    ensures IsRun(run, events) && run[|events|] == BOTH_WAIT
  {
    hide IsRun, FloorLog2, Pow2, OldHome, Elder, HeadShift;
    SmallHomes();
    var idle := Thread(Idle, 0, 0);
    run, events := [Grid(2, Heads(1, 1, 0, 0), 2, 2, {}, [idle, idle])], [];
    assert IsRun(run, events) by { OneMoment(run[0]); }
    run, events := Extend(run, events, 0, Reserve);
    run, events := Extend(run, events, 1, Reserve);
  }

  /** The catch-up after the later home's split finds the earlier home not ready. */
  lemma LaterFirst() returns (run: seq<Grid>, events: seq<Event>)
    ensures IsRun(run, events) && run[|events|] == LATER_DONE
  {
    hide IsStep, Init, FloorLog2, Pow2, OldHome, Elder;
    SmallHomes();
    run, events := TakeHomes();
    run, events := SplitEmpty(run, events, 1);
    assert run[|events|] == LATER_DONE.(threads := [Thread(Waiting, 2, 0), Thread(Published, 3, 0)]);
    run, events := LoadAfter(run, events, 1);
    assert run[|events|] == LATER_DONE.(threads := [Thread(Waiting, 2, 0), Thread(Looping, 3, 2)]);
    run, events := Extend(run, events, 1, Look);
  }

  /** Two grows that finish in the wrong order leave the published length behind the homes in use, with
      no thread under way to bring it up to date. */
  lemma LengthLags() returns (run: seq<Grid>, events: seq<Event>)
    ensures IsRun(run, events) && run[|events|] == BOTH_DONE
    ensures forall t | 0 <= t < |BOTH_DONE.threads| :: BOTH_DONE.threads[t].stage.Idle?
    ensures Usable(BOTH_DONE, BOTH_DONE.length)
  {
    hide IsStep, Init, FloorLog2, Pow2, OldHome, Elder;
    SmallHomes();
    run, events := LaterFirst();
    run, events := SplitEmpty(run, events, 0);
    assert run[|events|] == BOTH_DONE.(length := 2, threads := [Thread(Published, 2, 0), Thread(Idle, 3, 2)]);
    run, events := LoadAfter(run, events, 0);
    assert run[|events|] == BOTH_DONE.(length := 2, threads := [Thread(Looping, 2, 2), Thread(Idle, 3, 2)]);
    run, events := Extend(run, events, 0, Look);
    run, events := Extend(run, events, 0, Exchange);
    assert run[|events|] == BOTH_DONE.(threads := [Thread(Looping, 2, 3), Thread(Idle, 3, 2)]);
    run, events := Extend(run, events, 0, Look);
  }

  lemma OneMoment(s: Grid)
    requires Init(s)
    ensures IsRun([s], [])
  {
  }
}
