/** AutoHyperClockTable::SplitForGrow, run by one thread while other threads keep pushing entries
    at the heads of the chains involved. */
module ChainSplit {
  import opened Arith
  import opened Slots
  import opened SplitModel
  import opened SplitReaders

  /** Memory at one moment, with the view that explains it. */
  datatype Moment = Moment(view: View, mem: seq<Slot>)

  ghost predicate SameExcept(m: seq<Slot>, n: seq<Slot>, i: nat) {
    |m| == |n| && forall j | 0 <= j < |m| && j != i :: m[j] == n[j]
  }

  ghost predicate OneStore(m: seq<Slot>, n: seq<Slot>) { exists i :: SameExcept(m, n, i) }

  /** A history in which successive moments differ by one store to one slot, and every moment is
      explained by a view that follows from the one before. */
  ghost predicate TraceOk(c: Split, trace: seq<Moment>) {
    && (forall k | 0 <= k < |trace| :: ViewOk(c, trace[k].view) && Rendered(c, trace[k].view, trace[k].mem))
    && (forall k | 0 < k < |trace| ::
          Step(c, trace[k - 1].view, trace[k].view) && OneStore(trace[k - 1].mem, trace[k].mem))
  }

  /** The state of a split in progress: memory, the view that explains it, the entries other
      threads are about to push (in the order of their head exchanges), and the history so far. */
  ghost predicate Inv(c: Split, v: View, mem: seq<Slot>, arrivals: seq<nat>, trace: seq<Moment>) {
    && ViewOk(c, v) && Rendered(c, v, mem)
    && NoDup(arrivals)
    && (forall i | 0 <= i < |arrivals| :: c.Belongs(arrivals[i]) && arrivals[i] !in Present(v))
    && trace != [] && trace[|trace| - 1] == Moment(v, mem) && TraceOk(c, trace)
  }

  lemma TraceExtends(c: Split, trace: seq<Moment>, m: Moment)
    requires TraceOk(c, trace) && trace != []
    requires ViewOk(c, m.view) && Rendered(c, m.view, m.mem)
    requires Step(c, trace[|trace| - 1].view, m.view) && OneStore(trace[|trace| - 1].mem, m.mem)
    ensures TraceOk(c, trace + [m])
  {
    hide ViewOk, Rendered, Step, OneStore;
    var t := trace + [m];
    forall k | 0 <= k < |t| ensures ViewOk(c, t[k].view) && Rendered(c, t[k].view, t[k].mem) {
      assert k < |trace| ==> t[k] == trace[k];
    }
    forall k | 0 < k < |t| ensures Step(c, t[k - 1].view, t[k].view) && OneStore(t[k - 1].mem, t[k].mem) {
      assert k < |trace| ==> t[k] == trace[k] && t[k - 1] == trace[k - 1];
    }
  }

  /** One store that keeps the set of entries. */
  lemma Moves(c: Split, v: View, mem: seq<Slot>, arrivals: seq<nat>, trace: seq<Moment>, w: View, m: seq<Slot>)
    requires Inv(c, v, mem, arrivals, trace)
    requires ViewOk(c, w) && Rendered(c, w, m) && Present(w) == Present(v) && Step(c, v, w) && OneStore(mem, m)
    ensures Inv(c, w, m, arrivals, trace + [Moment(w, m)])
  {
    hide ViewOk, Rendered, Step, OneStore, TraceOk;
    TraceExtends(c, trace, Moment(w, m));
  }

  lemma SizeIs(c: Split, v: View, mem: seq<Slot>)
    requires ViewOk(c, v) && Rendered(c, v, mem)
    ensures |mem| == |c.keys| && c.oldHome < c.growHome < |mem|
  {
  }

  lemma ChainStore(mem: seq<Slot>, e: nat, l: Link)
    requires e < |mem|
    ensures OneStore(mem, WithChain(mem, e, l))
  {
    assert SameExcept(mem, WithChain(mem, e, l), e);
  }

  lemma HeadStore(mem: seq<Slot>, e: nat, l: Link)
    requires e < |mem|
    ensures OneStore(mem, WithHead(mem, e, l))
  {
    assert SameExcept(mem, WithHead(mem, e, l), e);
  }

  /** An inserting thread stores its chain link and then exchanges the head. */
  lemma Pushes(c: Split, v: View, mem: seq<Slot>, arrivals: seq<nat>, trace: seq<Moment>)
    requires Inv(c, v, mem, arrivals, trace) && arrivals != []
    ensures var e := arrivals[0];
      && e < |mem| && PushHome(c, v, e) < |mem|
      && var m := WithChain(mem, e, HeadLink(c, v, e));
         var n := WithHead(m, PushHome(c, v, e), Locked(Make(e, PushShift(c, v)), PushHeld(c, v, e)));
      Inv(c, Pushed(c, v, e), n, arrivals[1..], trace + [Moment(v, m), Moment(Pushed(c, v, e), n)])
  {
    hide ViewOk, Rendered, TraceOk, Step, OneStore, NoDup;
    var e := arrivals[0];
    assert c.Belongs(e);
    PushTarget(c, v, mem, e);
    var m := WithChain(mem, e, HeadLink(c, v, e));
    PrivateStore(c, v, mem, e, HeadLink(c, v, e));
    ChainStore(mem, e, HeadLink(c, v, e));
    Stutter(c, v);
    Moves(c, v, mem, arrivals, trace, v, m);
    PushesHead(c, v, m, arrivals, trace + [Moment(v, m)]);
    var n := WithHead(m, PushHome(c, v, e), Locked(Make(e, PushShift(c, v)), PushHeld(c, v, e)));
    var w := Pushed(c, v, e);
    assert trace + [Moment(v, m)] + [Moment(w, n)] == trace + [Moment(v, m), Moment(w, n)];
  }

  lemma PushesHead(c: Split, v: View, m: seq<Slot>, arrivals: seq<nat>, trace: seq<Moment>)
    requires Inv(c, v, m, arrivals, trace) && arrivals != []
    requires arrivals[0] < |m| && m[arrivals[0]].chain == HeadLink(c, v, arrivals[0])
    ensures var e := arrivals[0];
      && PushHome(c, v, e) < |m|
      && var n := WithHead(m, PushHome(c, v, e), Locked(Make(e, PushShift(c, v)), PushHeld(c, v, e)));
      Inv(c, Pushed(c, v, e), n, arrivals[1..], trace + [Moment(Pushed(c, v, e), n)])
  {
    hide ViewOk, Rendered, Step, OneStore, TraceOk;
    var e := arrivals[0];
    assert c.Belongs(e);
    PushRenders(c, v, m, e);
    PushKeepsOk(c, v, e);
    var l := Locked(Make(e, PushShift(c, v)), PushHeld(c, v, e));
    HeadStore(m, PushHome(c, v, e), l);
    TraceExtends(c, trace, Moment(Pushed(c, v, e), WithHead(m, PushHome(c, v, e), l)));
  }

  lemma Advances(c: Split, v: View, mem: seq<Slot>, arrivals: seq<nat>, trace: seq<Moment>, b: bool)
    requires Inv(c, v, mem, arrivals, trace) && v.published && v.frontier.At(b) < v.frontier.At(!b)
    ensures v.frontier.At(!b) <= |v.base| && v.base[v.frontier.At(b)] < |mem|
    ensures Inv(c, Advance(c, v, b), AdvancedMem(c, v, mem, b), arrivals,
                trace + [Moment(Advance(c, v, b), AdvancedMem(c, v, mem, b))])
  {
    hide ViewOk, Rendered, TraceOk, Step, OneStore, NoDup;
    FrontierInRange(c, v, !b);
    AdvanceRenders(c, v, mem, b);
    AdvanceKeepsOk(c, v, b);
    var f := v.frontier.At(b);
    ChainStore(mem, v.base[f], NewLink(c, v.base, NextOf(c, v.base, f + 1, b), b));
    Moves(c, v, mem, arrivals, trace, Advance(c, v, b), AdvancedMem(c, v, mem, b));
  }

  lemma Publishes(c: Split, v: View, mem: seq<Slot>, arrivals: seq<nat>, trace: seq<Moment>)
    requires Inv(c, v, mem, arrivals, trace) && !v.published
    requires c.growHome < |mem| && mem[c.growHome].head == Locked(EntryLink(c, v, true), true)
    ensures c.oldHome < |mem|
    ensures var m := WithHead(mem, c.oldHome, Locked(EntryLink(c, v, false), true));
            Inv(c, Publish(c, v), m, arrivals, trace + [Moment(Publish(c, v), m)])
  {
    hide ViewOk, Rendered, TraceOk, Step, OneStore, NoDup;
    SizeIs(c, v, mem);
    PublishRenders(c, v, mem);
    PublishKeepsOk(c, v);
    HeadStore(mem, c.oldHome, Locked(EntryLink(c, v, false), true));
    Moves(c, v, mem, arrivals, trace, Publish(c, v), WithHead(mem, c.oldHome, Locked(EntryLink(c, v, false), true)));
  }

  /** The grow home's head means nothing to anyone before the old head is exchanged. */
  lemma Prepares(c: Split, v: View, mem: seq<Slot>, arrivals: seq<nat>, trace: seq<Moment>, l: Link)
    requires Inv(c, v, mem, arrivals, trace) && !v.published
    ensures c.growHome < |mem|
    ensures var m := WithHead(mem, c.growHome, l); Inv(c, v, m, arrivals, trace + [Moment(v, m)])
  {
    hide TraceOk, Step, OneStore, NoDup;
    var m := WithHead(mem, c.growHome, l);
    forall i | 0 < i <= |v.base| ensures ChainIs(m, v.base[i - 1], OldLink(c, v.base, i)) {
      assert ChainIs(mem, v.base[i - 1], OldLink(c, v.base, i));
    }
    Stutter(c, v);
    HeadStore(mem, c.growHome, l);
    Moves(c, v, mem, arrivals, trace, v, m);
  }

  /** Taking or dropping a rewrite lock changes only the locked mark of a non-empty head. */
  lemma Relocks(c: Split, v: View, mem: seq<Slot>, arrivals: seq<nat>, trace: seq<Moment>, b: bool, held: bool)
    requires Inv(c, v, mem, arrivals, trace)
    requires if v.published then !held else !b && (held ==> v.base != [])
    ensures c.Home(b) < |mem|
    ensures var w := v.(held := Set(v.held, b, held));
            var m := WithHead(mem, c.Home(b), Locked(mem[c.Home(b)].head, held));
            Inv(c, w, m, arrivals, trace + [Moment(w, m)])
  {
    hide ViewOk, Rendered, TraceOk, Step, OneStore, NoDup;
    SizeIs(c, v, mem);
    var w := v.(held := Set(v.held, b, held));
    var m := WithHead(mem, c.Home(b), Locked(mem[c.Home(b)].head, held));
    RelockRenders(c, v, mem, b, held);
    HeadStore(mem, c.Home(b), Locked(mem[c.Home(b)].head, held));
    Moves(c, v, mem, arrivals, trace, w, m);
  }

  lemma RelockRenders(c: Split, v: View, mem: seq<Slot>, b: bool, held: bool)
    requires ViewOk(c, v) && Rendered(c, v, mem)
    requires if v.published then !held else !b && (held ==> v.base != [])
    ensures c.Home(b) < |mem|
    ensures var w := v.(held := Set(v.held, b, held));
            ViewOk(c, w) && Step(c, v, w) && Rendered(c, w, WithHead(mem, c.Home(b), Locked(mem[c.Home(b)].head, held)))
  {
    var w := v.(held := Set(v.held, b, held));
    var m := WithHead(mem, c.Home(b), Locked(mem[c.Home(b)].head, held));
    if v.published {
      forall b': bool ensures ChainOk(c, w, b') {
        assert ChainOk(c, v, b');
      }
      forall b': bool ensures RenderedPre(c, w, m, b') {
        assert RenderedPre(c, v, mem, b');
        forall j | 0 < j <= |w.pre.At(b')| ensures ChainIs(m, w.pre.At(b')[j - 1], PreLink(c, w, b', j)) {
          assert ChainIs(mem, v.pre.At(b')[j - 1], PreLink(c, v, b', j));
        }
      }
      forall i | 0 <= i < |w.base| ensures ChainIs(m, w.base[i], LinkAt(c, w, i)) {
        assert ChainIs(mem, v.base[i], LinkAt(c, v, i));
      }
    } else {
      forall i | 0 < i <= |w.base| ensures ChainIs(m, w.base[i - 1], OldLink(c, w.base, i)) {
        assert ChainIs(mem, v.base[i - 1], OldLink(c, v.base, i));
      }
    }
  }

  // ---------------------------------------------------------------------------------------
  // What the finished chains contain
  // ---------------------------------------------------------------------------------------

  /** The entries of `s` that go to chain `b`, in the same order. */
  ghost function Only(c: Split, s: seq<nat>, b: bool): seq<nat> {
    if s == [] then [] else (if c.Bit(s[0]) == b then [s[0]] else []) + Only(c, s[1..], b)
  }

  /** Pushing one after the other leaves the last one first. */
  ghost function Rev(s: seq<nat>): seq<nat> {
    if s == [] then [] else Rev(s[1..]) + [s[0]]
  }

  lemma {:induction false} RevSnoc(s: seq<nat>, e: nat)
    ensures Rev(s + [e]) == [e] + Rev(s)
  {
    if s != [] {
      RevSnoc(s[1..], e);
      assert (s + [e])[1..] == s[1..] + [e];
    }
  }

  lemma {:induction false} OnlySnoc(c: Split, s: seq<nat>, e: nat, b: bool)
    ensures Only(c, s + [e], b) == Only(c, s, b) + if c.Bit(e) == b then [e] else []
  {
    if s != [] {
      OnlySnoc(c, s[1..], e, b);
      assert (s + [e])[1..] == s[1..] + [e];
    } else {
      assert Only(c, [e], b) == (if c.Bit(e) == b then [e] else []) + [];
    }
  }

  lemma LateGrows(c: Split, late: seq<nat>, e: nat, b: bool)
    ensures Rev(Only(c, late + [e], b)) == (if c.Bit(e) == b then [e] + Rev(Only(c, late, b))
        else Rev(Only(c, late, b)))
  {
    OnlySnoc(c, late, e, b);
    if c.Bit(e) == b {
      RevSnoc(Only(c, late, b), e);
    } else {
      assert Only(c, late, b) + [] == Only(c, late, b);
    }
  }

  lemma {:induction false} OnlySkips(c: Split, base: seq<nat>, i: nat, b: bool)
    requires i <= |base|
    ensures Only(c, base[i..], b) == Only(c, base[NextOf(c, base, i, b)..], b)
    decreases |base| - i
  {
    if i < |base| && c.Bit(base[i]) != b {
      OnlySkips(c, base, i + 1, b);
      assert base[i..][1..] == base[i + 1..];
    }
  }

  /** How the view came about: what was there at first, and what was pushed before and after the
      split was published. */
  ghost predicate Ledger(c: Split, v: View, original: seq<nat>, coming: seq<nat>, early: seq<nat>, late: seq<nat>,
      arrivals: seq<nat>) {
    && early + late + arrivals == coming
    && (!v.published ==> late == [])
    && v.base == Rev(early) + original
    && v.pre == Pair(Rev(Only(c, late, false)), Rev(Only(c, late, true)))
  }

  lemma LedgerPushed(c: Split, v: View, original: seq<nat>, coming: seq<nat>, early: seq<nat>, late: seq<nat>,
      arrivals: seq<nat>)
    requires Ledger(c, v, original, coming, early, late, arrivals) && arrivals != []
    ensures var e := arrivals[0];
      if v.published then Ledger(c, Pushed(c, v, e), original, coming, early, late + [e], arrivals[1..])
      else Ledger(c, Pushed(c, v, e), original, coming, early + [e], late, arrivals[1..])
  {
    hide Rev, Only;
    var e := arrivals[0];
    assert arrivals == [e] + arrivals[1..];
    if v.published {
      LateGrows(c, late, e, false);
      LateGrows(c, late, e, true);
      assert early + (late + [e]) + arrivals[1..] == coming;
    } else {
      RevSnoc(early, e);
      assert [e] + (Rev(early) + original) == Rev(early + [e]) + original;
      assert (early + [e]) + late + arrivals[1..] == coming;
    }
  }

  lemma LedgerPublished(c: Split, v: View, original: seq<nat>, coming: seq<nat>, early: seq<nat>, late: seq<nat>,
      arrivals: seq<nat>)
    requires Ledger(c, v, original, coming, early, late, arrivals) && !v.published
    ensures Ledger(c, Publish(c, v), original, coming, early, late, arrivals)
  {
  }

  /** A finished chain, read from any of its entries, is the partition of what was there. */
  lemma {:induction false} FinishedTail(c: Split, v: View, b: bool, i: nat)
    requires i <= |v.base| && v.frontier.At(b) == |v.base|
    requires i < |v.base| ==> c.Bit(v.base[i]) == b
    ensures TailPath(c, v, b, i) == Only(c, v.base[i..], b)
    ensures UpgradedFrom(c, v, b, i) == |TailPath(c, v, b, i)| + 1
    decreases |v.base| - i
  {
    if i < |v.base| {
      var j := NextOf(c, v.base, i + 1, b);
      FinishedTail(c, v, b, j);
      OnlySkips(c, v.base, i + 1, b);
      assert v.base[i..][1..] == v.base[i + 1..];
    }
  }

  /** What chain `b` must contain after a split of `original`: entries pushed after publication, newest
      first, then the entries present at publication that go to it, in their order on the old chain. */
  ghost function SplitChain(c: Split, original: seq<nat>, early: seq<nat>, late: seq<nat>, b: bool): seq<nat> {
    Rev(Only(c, late, b)) + Only(c, Rev(early) + original, b)
  }

  ghost predicate Finished(c: Split, mem: seq<Slot>, home: nat, path: seq<nat>) {
    && home < |mem|
    && Walks(c, mem, mem[home].head, path, |path| + 1, home)
    && NoDup(path) && Plain(mem, home, path)
  }

  /** The rewrite lock is free, and no link but an end marker carries the locked mark. */
  ghost predicate Plain(mem: seq<Slot>, home: nat, path: seq<nat>) {
    && home < |mem| && mem[home].head.locked == mem[home].head.end
    && forall i | 0 <= i < |path| :: path[i] < |mem| && mem[path[i]].chain.locked == mem[path[i]].chain.end
  }

  lemma {:induction false} OnlyWithin(c: Split, s: seq<nat>, b: bool)
    ensures forall e | e in Only(c, s, b) :: e in s
  {
    if s != [] {
      OnlyWithin(c, s[1..], b);
    }
  }

  lemma FinishedPlain(c: Split, v: View, mem: seq<Slot>, b: bool)
    requires ViewOk(c, v) && Rendered(c, v, mem) && v.published && !v.held.At(b)
    ensures Plain(mem, c.Home(b), v.pre.At(b) + Only(c, v.base, b))
  {
    hide NextOf, Only, ViewOk;
    OnlyWithin(c, v.base, b);
    assert RenderedPre(c, v, mem, b);
    assert HeadIs(mem, c.Home(b), Locked(PreLink(c, v, b, 0), v.held.At(b)));
    var path := v.pre.At(b) + Only(c, v.base, b);
    forall i | 0 <= i < |path| ensures path[i] < |mem| && mem[path[i]].chain.locked == mem[path[i]].chain.end {
      if i < |v.pre.At(b)| {
        assert ChainIs(mem, v.pre.At(b)[i], PreLink(c, v, b, i + 1));
      } else {
        assert path[i] in Only(c, v.base, b);
        var k :| 0 <= k < |v.base| && v.base[k] == path[i];
        assert ChainIs(mem, v.base[k], LinkAt(c, v, k));
      }
    }
  }

  lemma FinishedChain(c: Split, v: View, mem: seq<Slot>, b: bool)
    requires ViewOk(c, v) && Rendered(c, v, mem) && v.published && v.frontier.At(b) == |v.base| && !v.held.At(b)
    ensures Finished(c, mem, c.Home(b), v.pre.At(b) + Only(c, v.base, b))
  {
    var i := NextOf(c, v.base, 0, b);
    assert RenderedPre(c, v, mem, b);
    HeadWalk(c, v, mem, b);
    ReaderPathNoDup(c, v, b);
    FinishedTail(c, v, b, i);
    OnlySkips(c, v.base, 0, b);
    assert v.base[0..] == v.base;
    FinishedPlain(c, v, mem, b);
  }

  // ---------------------------------------------------------------------------------------
  // The splitting thread
  // ---------------------------------------------------------------------------------------

  lemma HeadToPush(c: Split, v: View, mem: seq<Slot>, arrivals: seq<nat>, trace: seq<Moment>)
    requires Inv(c, v, mem, arrivals, trace) && arrivals != []
    ensures var e := arrivals[0];
      && e < |mem| && c.oldHome < c.growHome < |mem| && PushHome(c, v, e) < |mem|
      && mem[c.oldHome].head.shift == PushShift(c, v)
      && PushHome(c, v, e) == (if v.published then mem[e].key.lo % Pow2(c.oldShift + 1) else c.oldHome)
      && mem[PushHome(c, v, e)].head == Locked(HeadLink(c, v, e), PushHeld(c, v, e))
      && mem[PushHome(c, v, e)].head.LockedNotEnd() == PushHeld(c, v, e)
      && HeadLink(c, v, e).locked == HeadLink(c, v, e).end
  {
    assert c.Belongs(arrivals[0]);
    PushTarget(c, v, mem, arrivals[0]);
  }

  lemma ReadsKey(c: Split, v: View, mem: seq<Slot>, arrivals: seq<nat>, trace: seq<Moment>, i: nat)
    requires Inv(c, v, mem, arrivals, trace) && i < |v.base|
    ensures v.base[i] < |mem| && (mem[v.base[i]].key.lo % Pow2(c.oldShift + 1) == c.oldHome <==> !c.Bit(v.base[i]))
  {
    assert c.Belongs(v.base[i]);
  }

  lemma ReadsOld(c: Split, v: View, mem: seq<Slot>, arrivals: seq<nat>, trace: seq<Moment>, i: nat)
    requires Inv(c, v, mem, arrivals, trace) && !v.published && i < |v.base|
    ensures v.base[i] < |mem| && mem[v.base[i]].chain == OldLink(c, v.base, i + 1)
  {
    assert ChainIs(mem, v.base[i + 1 - 1], OldLink(c, v.base, i + 1));
  }

  lemma ReadsOldHead(c: Split, v: View, mem: seq<Slot>, arrivals: seq<nat>, trace: seq<Moment>)
    requires Inv(c, v, mem, arrivals, trace) && !v.published
    ensures c.oldHome < |mem| && mem[c.oldHome].head == Locked(OldLink(c, v.base, 0), v.held.zero)
  {
  }

  lemma ReadsLink(c: Split, v: View, mem: seq<Slot>, arrivals: seq<nat>, trace: seq<Moment>, i: nat)
    requires Inv(c, v, mem, arrivals, trace) && v.published && i < |v.base|
    ensures v.base[i] < |mem| && mem[v.base[i]].chain == LinkAt(c, v, i)
  {
    assert ChainIs(mem, v.base[i], LinkAt(c, v, i));
  }

  /** The old head still has its saved value exactly when nothing was pushed since. */
  lemma HeadTells(c: Split, v: View, mem: seq<Slot>, arrivals: seq<nat>, trace: seq<Moment>, seen: seq<nat>)
    requires Inv(c, v, mem, arrivals, trace) && !v.published && IsSuffix(seen, v.base)
    requires v.held.zero <==> seen != []
    ensures c.oldHome < |mem|
    ensures mem[c.oldHome].head == Locked(OldLink(c, seen, 0), true) <==> v.base == seen
  {
    var k := |v.base| - |seen|;
    assert seen != [] ==> v.base[k] == v.base[k..][0] == seen[0];
  }

  lemma SuffixAt(s: seq<nat>, t: seq<nat>, i: nat)
    requires IsSuffix(s, t) && i < |s|
    ensures t[|t| - |s| + i] == s[i]
  {
    assert t[|t| - |s|..][i] == s[i];
  }

  lemma SuffixTrans(s: seq<nat>, t: seq<nat>, u: seq<nat>)
    requires IsSuffix(s, t) && IsSuffix(t, u)
    ensures IsSuffix(s, u)
  {
    assert u[|u| - |s|..] == u[|u| - |t|..][|t| - |s|..];
  }

  /** Everything a split may touch: the two heads, and the chain links of entries that belong to it. */
  ghost predicate Framed(c: Split, touched: set<nat>, v: View, arrivals: seq<nat>, m0: seq<Slot>, m: seq<Slot>) {
    && |m| == |m0| && Present(v) <= touched && (forall i | 0 <= i < |arrivals| :: arrivals[i] in touched)
    && forall i | 0 <= i < |m| ::
         && m[i].(head := m0[i].head, chain := m0[i].chain) == m0[i]
         && (i == c.oldHome || i == c.growHome || m[i].head == m0[i].head)
         && (i in touched || m[i].chain == m0[i].chain)
  }

  lemma FramedStore(c: Split, touched: set<nat>, v: View, arrivals: seq<nat>, m0: seq<Slot>, m: seq<Slot>, e: nat,
      l: Link)
    requires Framed(c, touched, v, arrivals, m0, m) && e < |m|
    ensures e in touched ==> Framed(c, touched, v, arrivals, m0, WithChain(m, e, l))
    ensures e == c.oldHome || e == c.growHome ==> Framed(c, touched, v, arrivals, m0, WithHead(m, e, l))
  {
  }

  /** The frame condition depends on the view only through the entries present. */
  lemma FramedView(c: Split, touched: set<nat>, v: View, arrivals: seq<nat>, m0: seq<Slot>, m: seq<Slot>, w: View,
      rest: seq<nat>)
    requires Framed(c, touched, v, arrivals, m0, m)
    requires Present(w) <= touched && forall i | 0 <= i < |rest| :: rest[i] in touched
    ensures Framed(c, touched, w, rest, m0, m)
  {
  }

  lemma FramedSame(c: Split, touched: set<nat>, v: View, arrivals: seq<nat>, m0: seq<Slot>, m: seq<Slot>, w: View)
    requires Framed(c, touched, v, arrivals, m0, m) && w.base == v.base && (w.pre == v.pre || w.pre == Pair([], []))
    ensures Framed(c, touched, w, arrivals, m0, m)
  {
    assert Present(w) <= Present(v);
  }

  lemma TouchedBase(c: Split, touched: set<nat>, v: View, arrivals: seq<nat>, m0: seq<Slot>, m: seq<Slot>, i: nat)
    requires Framed(c, touched, v, arrivals, m0, m) && i < |v.base|
    ensures v.base[i] in touched
  {
    assert v.base[i] in Present(v);
  }

  lemma FramedPush(c: Split, touched: set<nat>, v: View, arrivals: seq<nat>, m0: seq<Slot>, m: seq<Slot>, l: Link,
      h: Link)
    requires Framed(c, touched, v, arrivals, m0, m) && arrivals != [] && arrivals[0] < |m|
        && PushHome(c, v, arrivals[0]) < |m|
    ensures var e := arrivals[0];
            Framed(c, touched, Pushed(c, v, e), arrivals[1..], m0, WithHead(WithChain(m, e, l), PushHome(c, v, e), h))
  {
    var e := arrivals[0];
    FramedStore(c, touched, v, arrivals, m0, m, e, l);
    FramedStore(c, touched, v, arrivals, m0, WithChain(m, e, l), PushHome(c, v, e), h);
    var w := Pushed(c, v, e);
    assert Present(w) <= touched by {
      assert forall x | x in Present(w) :: x == e || x in Present(v);
    }
    FramedView(c, touched, v, arrivals, m0, WithHead(WithChain(m, e, l), PushHome(c, v, e), h), w, arrivals[1..]);
  }

  const NONE := -1

  function EntryOr(base: seq<nat>, i: nat): int { if i < |base| then base[i] else NONE }

  lemma FirstSeen(c: Split, seen: seq<nat>, i: nat)
    requires i < |seen|
    ensures NextOf(c, seen, 0, false) >= i ==> (!c.Bit(seen[i]) <==> NextOf(c, seen, 0, false) == i)
    ensures NextOf(c, seen, 0, true) >= i ==> (c.Bit(seen[i]) <==> NextOf(c, seen, 0, true) == i)
    ensures NextOf(c, seen, 0, c.Bit(seen[0])) == 0
  {
  }

  /** What the scan finds on a chain: its first entry for each target chain, the later of those two
      entries if both exist, and which target chain comes first. */
  ghost predicate Scanned(c: Split, seen: seq<nat>, frontier: Pair<int>, cur: int, first: int) {
    var z, o := NextOf(c, seen, 0, false), NextOf(c, seen, 0, true);
    && frontier.zero == EntryOr(seen, z)
    && frontier.one == EntryOr(seen, o)
    && cur == EntryOr(seen, if z < o then o else z)
    && first == if seen == [] then NONE else if c.Bit(seen[0]) then 1 else 0
  }

  /** The state right after both heads were published for the chain `seen`. */
  ghost predicate JustPublished(c: Split, v: View, seen: seq<nat>) {
    var z, o := NextOf(c, seen, 0, false), NextOf(c, seen, 0, true);
    v.published && v.base == seen && v.frontier == Pair(z, o) && v.held == Pair(z < |seen|, o < |seen|)
  }

  ghost function SplitOf(mem: seq<Slot>, oldHome: nat, growHome: nat, oldShift: nat): Split {
    Split(seq(|mem|, i requires 0 <= i < |mem| => mem[i].key), oldHome, growHome, oldShift)
  }

  /** Before the split, with the chain's rewrite lock free. */
  ghost function Start(chain: seq<nat>): View {
    View(false, chain, Pair(0, 0), Pair([], []), Pair(false, false))
  }

  class Splitter {
    const arr: array<Slot>
    const oldHome: nat
    const growHome: nat
    const oldShift: nat
    /** Entries that other threads are about to push, in the order of their head exchanges. */
    var arrivals: seq<nat>
    ghost const c: Split
    /** The chain when the split began, and everything that arrives during it. */
    ghost const original: seq<nat>
    ghost const coming: seq<nat>
    ghost const initial: seq<Slot>
    ghost const touched: set<nat>
    ghost var view: View
    ghost var trace: seq<Moment>
    /** Entries pushed before and after the split was published. */
    ghost var early: seq<nat>
    ghost var late: seq<nat>

    ghost predicate Valid()
      reads this, arr
    {
      && c.oldHome == oldHome && c.growHome == growHome && c.oldShift == oldShift
      && oldHome < growHome < arr.Length
      && Inv(c, view, arr[..], arrivals, trace)
      && Ledger(c, view, original, coming, early, late, arrivals)
      && Framed(c, touched, view, arrivals, initial, arr[..])
    }

    /** A chain about to be split, unlocked, and the entries that will arrive meanwhile. */
    constructor (arr: array<Slot>, oldHome: nat, growHome: nat, oldShift: nat, arrivals: seq<nat>,
        ghost chain: seq<nat>)
      requires var c := SplitOf(arr[..], oldHome, growHome, oldShift);
        && ViewOk(c, Start(chain)) && Rendered(c, Start(chain), arr[..])
        && NoDup(arrivals) && forall i | 0 <= i < |arrivals| :: c.Belongs(arrivals[i]) && arrivals[i] !in chain
      ensures Valid() && view == Start(chain) && this.arr == arr && this.arrivals == arrivals
      ensures this.oldHome == oldHome && this.growHome == growHome && this.oldShift == oldShift
      ensures c == SplitOf(arr[..], oldHome, growHome, oldShift) && original == chain && coming == arrivals
      ensures initial == arr[..] && touched == (set e | e in chain) + (set e | e in arrivals)
      ensures early == late == [] && trace == [Moment(view, arr[..])]
    {
      this.arr, this.oldHome, this.growHome, this.oldShift := arr, oldHome, growHome, oldShift;
      this.arrivals, coming, original := arrivals, arrivals, chain;
      c, initial := SplitOf(arr[..], oldHome, growHome, oldShift), arr[..];
      touched := (set e | e in chain) + (set e | e in arrivals);
      early, late := [], [];
      view, trace := Start(chain), [Moment(Start(chain), arr[..])];
      new;
      StartsOk(c, chain, arrivals, arr[..]);
    }

    lemma Constants()
      requires Valid()
      ensures c.oldHome == oldHome && c.growHome == growHome && c.oldShift == oldShift
          && oldHome < growHome < arr.Length
    {
    }

    /** Another thread links its entry at the head of the chain that its hash selects. */
    method Push()
      requires Valid() && arrivals != []
      modifies this`arrivals, this`view, this`trace, this`early, this`late, arr
      ensures Valid() && arrivals == old(arrivals)[1..] && view == Pushed(c, old(view), old(arrivals)[0])
      ensures old(trace) <= trace
      ensures growHome < arr.Length && (!view.published ==> arr[growHome].head == old(arr[growHome].head))
    {
      hide Inv, Ledger, NextOf, Framed;
      ghost var mem := arr[..];
      var e := arrivals[0];
      Pushes(c, view, mem, arrivals, trace);
      HeadToPush(c, view, mem, arrivals, trace);
      var home, shift := oldHome, oldShift;
      if arr[home].head.shift > shift {
        shift := shift + 1;
        home := arr[e].key.lo % Pow2(shift);
      }
      var next := arr[home].head;
      var newHead, chainNext := Make(e, shift), next;
      if next.LockedNotEnd() {
        newHead := newHead.(locked := true);
        chainNext := chainNext.(locked := false);
      }
      assert !view.published ==> home == oldHome;
      arr[e] := arr[e].(chain := chainNext);
      ghost var m := arr[..];
      assert m == WithChain(mem, e, HeadLink(c, view, e));
      arr[home] := arr[home].(head := newHead);
      assert arr[..] == WithHead(m, PushHome(c, view, e), Locked(Make(e, PushShift(c, view)), PushHeld(c, view, e)));
      LedgerPushed(c, view, original, coming, early, late, arrivals);
      if view.published {
        late := late + [e];
      } else {
        early := early + [e];
      }
      FramedPush(c, touched, view, arrivals, initial, mem, HeadLink(c, view, e),
                 Locked(Make(e, PushShift(c, view)), PushHeld(c, view, e)));
      trace := trace + [Moment(view, m), Moment(Pushed(c, view, e), arr[..])];
      view := Pushed(c, view, e);
      arrivals := arrivals[1..];
    }

    /** Any number of other threads' pushes take effect here. */
    method Arrive()
      requires Valid()
      modifies this`arrivals, this`view, this`trace, this`early, this`late, arr
      ensures Valid() && old(trace) <= trace
      ensures view.published == old(view.published) && view.held == old(view.held)
          && view.frontier == old(view.frontier)
      ensures view.published ==> view.base == old(view.base)
      ensures IsSuffix(old(view.base), view.base)
      ensures !view.published ==> |view.base| + |arrivals| == old(|view.base| + |arrivals|)
      ensures !view.published ==> arr[growHome].head == old(arr[growHome].head)
    {
      hide Inv, Ledger, NextOf, Framed;
      var n :| 0 <= n <= |arrivals|;
      while n > 0
        invariant Valid() && old(trace) <= trace && n <= |arrivals|
        invariant view.published == old(view.published) && view.held == old(view.held)
            && view.frontier == old(view.frontier)
        invariant view.published ==> view.base == old(view.base)
        invariant IsSuffix(old(view.base), view.base)
        invariant !view.published ==> |view.base| + |arrivals| == old(|view.base| + |arrivals|)
        invariant !view.published ==> arr[growHome].head == old(arr[growHome].head)
      {
        ghost var base := view.base;
        Push();
        assert IsSuffix(base, view.base);
        SuffixTrans(old(view.base), base, view.base);
        n := n - 1;
      }
    }

    /** Sets the locked mark on the old head; no effect on an empty chain. */
    method AcquireOld() returns (saved: Link)
      requires Valid() && !view.published && !view.held.zero
      modifies this`view, this`trace, arr
      ensures Valid() && old(trace) <= trace
      ensures view == old(view).(held := Set(old(view.held), false, view.base != []))
      ensures saved == Locked(OldLink(c, view.base, 0), true)
      ensures arr[growHome].head == old(arr[growHome].head)
    {
      hide Inv, Rev, Only, NextOf, Framed;
      ReadsOldHead(c, view, arr[..], arrivals, trace);
      Relocks(c, view, arr[..], arrivals, trace, false, view.base != []);
      saved := arr[oldHome].head.(locked := true);
      arr[oldHome] := arr[oldHome].(head := saved);
      assert arr[..] == WithHead(old(arr[..]), oldHome, Locked(old(arr[..])[oldHome].head, view.base != []));
      FramedStore(c, touched, view, arrivals, initial, old(arr[..]), oldHome, saved);
      FramedSame(c, touched, view, arrivals, initial, arr[..], view.(held := Set(view.held, false, view.base != [])));
      view := view.(held := Set(view.held, false, view.base != []));
      trace := trace + [Moment(view, arr[..])];
    }

    /** Whether the entry at position `i` of the scanned chain goes to the zero chain. */
    method GoesToZero(e: nat, ghost seen: seq<nat>, ghost i: nat) returns (zero: bool)
      requires Valid() && !view.published && IsSuffix(seen, view.base) && i < |seen| && e == seen[i]
      ensures zero == !c.Bit(seen[i])
    {
      hide Inv, Ledger, NextOf, Framed;
      SuffixAt(seen, view.base, i);
      ReadsKey(c, view, arr[..], arrivals, trace, |view.base| - |seen| + i);
      zero := arr[e].key.lo % Pow2(oldShift + 1) == oldHome;
    }

    /** Loads the chain link of position `i` of the scanned chain, after any pushes. */
    method LoadOld(e: nat, ghost seen: seq<nat>, ghost i: nat) returns (next: Link)
      requires Valid() && !view.published && IsSuffix(seen, view.base) && i < |seen| && e == seen[i]
      modifies this`arrivals, this`view, this`trace, this`early, this`late, arr
      ensures Valid() && old(trace) <= trace
      ensures !view.published && view.held == old(view.held) && IsSuffix(seen, view.base)
      ensures |view.base| + |arrivals| == old(|view.base| + |arrivals|)
      ensures next.end <==> i + 1 == |seen|
      ensures i + 1 < |seen| ==> next.next == seen[i + 1]
    {
      hide Inv, Ledger, NextOf, Framed;
      Arrive();
      SuffixTrans(seen, old(view.base), view.base);
      SuffixAt(seen, view.base, i);
      ReadsOld(c, view, arr[..], arrivals, trace, |view.base| - |seen| + i);
      next := arr[e].chain;
      if i + 1 < |seen| {
        SuffixAt(seen, view.base, i + 1);
      }
    }

    /** Finds the first entry of each target chain on the chain that `saved` heads, or scans it all. */
    method Scan(saved: Link, ghost seen: seq<nat>) returns (frontier: Pair<int>, cur: int, first: int)
      requires Valid() && !view.published && IsSuffix(seen, view.base)
      requires saved == Locked(OldLink(c, seen, 0), true)
      modifies this`arrivals, this`view, this`trace, this`early, this`late, arr
      ensures Valid() && old(trace) <= trace
      ensures !view.published && view.held == old(view.held) && IsSuffix(seen, view.base)
      ensures |view.base| + |arrivals| == old(|view.base| + |arrivals|)
      ensures Scanned(c, seen, frontier, cur, first)
    {
      hide Inv, Ledger, NextOf, IsSuffix, Valid;
      frontier, cur, first := Pair(NONE, NONE), NONE, NONE;
      var next := saved;
      ghost var i := 0;
      ghost var z, o := NextOf(c, seen, 0, false), NextOf(c, seen, 0, true);
      while !next.end
        invariant Valid() && old(trace) <= trace
        invariant !view.published && view.held == old(view.held) && IsSuffix(seen, view.base)
        invariant |view.base| + |arrivals| == old(|view.base| + |arrivals|)
        invariant 0 <= i <= |seen| && (next.end <==> i == |seen|) && (i < |seen| ==> next.next == seen[i])
        invariant frontier.zero == if z < i then seen[z] else NONE
        invariant frontier.one == if o < i then seen[o] else NONE
        invariant z >= i || o >= i
        invariant first == if i == 0 then NONE else if c.Bit(seen[0]) then 1 else 0
        decreases |seen| - i
      {
        cur := next.next;
        FirstSeen(c, seen, i);
        var zero := GoesToZero(cur, seen, i);
        if zero {
          if frontier.zero == NONE {
            frontier := Pair(cur, frontier.one);
            if frontier.one != NONE {
              return;
            }
            first := 0;
          }
        } else {
          if frontier.one == NONE {
            frontier := Pair(frontier.zero, cur);
            if frontier.zero != NONE {
              return;
            }
            first := 1;
          }
        }
        next := LoadOld(cur, seen, i);
        i := i + 1;
      }
      cur := NONE;
    }

    /** Stores the one chain's head; it means nothing until the old head is exchanged. */
    method StoreOneHead(frontier: Pair<int>, ghost seen: seq<nat>)
      requires Valid() && !view.published
      requires exists cur, first :: Scanned(c, seen, frontier, cur, first)
      modifies this`trace, arr
      ensures Valid() && old(trace) <= trace
      ensures arr[growHome].head == Locked(NewLink(c, seen, NextOf(c, seen, 0, true), true), true)
    {
      hide Inv, Ledger, NextOf, Framed;
      var newShift := oldShift + 1;
      var oneHead := if frontier.one != NONE then Make(frontier.one, newShift) else MakeEnd(growHome, newShift);
      oneHead := oneHead.(locked := true);
      Prepares(c, view, arr[..], arrivals, trace, oneHead);
      arr[growHome] := arr[growHome].(head := oneHead);
      assert arr[..] == WithHead(old(arr[..]), growHome, oneHead);
      FramedStore(c, touched, view, arrivals, initial, old(arr[..]), growHome, oneHead);
      trace := trace + [Moment(view, arr[..])];
    }

    /** Tries to exchange the old head for the head of the zero chain. If a push interfered, keeps
        the lock (or takes it, if the chain was empty before) and reports the current head. */
    method CasOldHead(saved: Link, frontier: Pair<int>, ghost seen: seq<nat>) returns (ok: bool, newSaved: Link)
      requires Valid() && !view.published && IsSuffix(seen, view.base)
      requires saved == Locked(OldLink(c, seen, 0), true) && (view.held.zero <==> seen != [])
      requires exists cur, first :: Scanned(c, seen, frontier, cur, first)
      requires arr[growHome].head == Locked(NewLink(c, seen, NextOf(c, seen, 0, true), true), true)
      modifies this`view, this`trace, arr
      ensures Valid() && old(trace) <= trace && view.base == old(view.base)
      ensures ok ==> JustPublished(c, view, seen)
      ensures !ok ==> !view.published && |view.base| > |seen| && view.held.zero
                      && newSaved == Locked(OldLink(c, view.base, 0), true)
    {
      hide Inv, Ledger, NextOf, Framed;
      HeadTells(c, view, arr[..], arrivals, trace, seen);
      newSaved := saved;
      ok := arr[oldHome].head == saved;
      if ok {
        var newShift := oldShift + 1;
        var zeroHead := if frontier.zero != NONE then Make(frontier.zero, newShift) else MakeEnd(oldHome, newShift);
        Exchange(zeroHead.(locked := true));
      } else if saved.end {
        newSaved := AcquireOld();
      } else {
        ReadsOldHead(c, view, arr[..], arrivals, trace);
        newSaved := arr[oldHome].head;
      }
    }

    /** The successful exchange of the old head. */
    method Exchange(newHead: Link)
      requires Valid() && !view.published
      requires arr[growHome].head == Locked(NewLink(c, view.base, NextOf(c, view.base, 0, true), true), true)
      requires newHead == Locked(NewLink(c, view.base, NextOf(c, view.base, 0, false), false), true)
      modifies this`view, this`trace, arr
      ensures Valid() && old(trace) <= trace && view == Publish(c, old(view))
    {
      hide Inv, Ledger, NextOf, Framed;
      LedgerPublished(c, view, original, coming, early, late, arrivals);
      Publishes(c, view, arr[..], arrivals, trace);
      arr[oldHome] := arr[oldHome].(head := newHead);
      assert arr[..] == WithHead(old(arr[..]), oldHome, newHead);
      FramedStore(c, touched, view, arrivals, initial, old(arr[..]), oldHome, newHead);
      FramedSame(c, touched, view, arrivals, initial, arr[..], Publish(c, view));
      view := Publish(c, view);
      trace := trace + [Moment(view, arr[..])];
    }

    /** Stores a new-shift link on the frontier entry of chain `b`. */
    method StoreLink(e: nat, l: Link, ghost b: bool)
      requires Valid() && view.published && view.frontier.At(b) < view.frontier.At(!b) <= |view.base|
      requires e == view.base[view.frontier.At(b)]
      requires l == NewLink(c, view.base, NextOf(c, view.base, view.frontier.At(b) + 1, b), b)
      modifies this`arrivals, this`view, this`trace, this`early, this`late, arr
      ensures Valid() && old(trace) <= trace && view.published
      ensures view.base == old(view.base) && view.held == old(view.held)
      ensures view.frontier == Set(old(view.frontier), b, NextOf(c, view.base, old(view.frontier).At(b) + 1, b))
    {
      hide Inv, Rev, Only, NextOf, Framed;
      Arrive();
      Advances(c, view, arr[..], arrivals, trace, b);
      ghost var mem := arr[..];
      arr[e] := arr[e].(chain := l);
      assert arr[..] == AdvancedMem(c, view, mem, b);
      TouchedBase(c, touched, view, arrivals, initial, mem, view.frontier.At(b));
      FramedStore(c, touched, view, arrivals, initial, mem, e, l);
      FramedSame(c, touched, view, arrivals, initial, arr[..], Advance(c, view, b));
      view := Advance(c, view, b);
      trace := trace + [Moment(view, arr[..])];
    }

    /** Loads the link of position `i`, which lies at or past the frontier of its own chain. */
    method LoadLink(e: nat, ghost i: nat) returns (next: Link)
      requires Valid() && view.published && i < |view.base| && e == view.base[i]
      requires view.frontier.At(c.Bit(view.base[i])) <= i
      ensures next == OldLink(c, view.base, i + 1)
    {
      hide Inv, Ledger, NextOf, Framed;
      ReadsLink(c, view, arr[..], arrivals, trace, i);
      next := arr[e].chain;
    }

    /** UpgradeShiftsOnRange: gives the links of chain `b` the new shift, from its frontier up to the
        entry right before the other chain's frontier, or through to a new end marker. */
    method UpgradeShifts(start: nat, stop: Link, ghost b: bool) returns (frontier: int)
      requires Valid() && view.published && view.frontier.At(b) < view.frontier.At(!b) <= |view.base|
      requires start == view.base[view.frontier.At(b)]
      requires stop == if view.frontier.At(!b) < |view.base| then OldLink(c, view.base, view.frontier.At(!b))
                       else MakeEnd(c.Home(b), c.NewShift())
      modifies this`arrivals, this`view, this`trace, this`early, this`late, arr
      ensures Valid() && old(trace) <= trace && view.published
      ensures view.base == old(view.base) && view.held == old(view.held)
      ensures view.frontier.At(!b) == old(view.frontier).At(!b)
      ensures if view.frontier.At(!b) < |view.base|
              then view.frontier.At(b) == view.frontier.At(!b) - 1 && frontier == view.base[view.frontier.At(b)]
              else view.frontier.At(b) == |view.base| && frontier == NONE
    {
      hide Inv, Ledger, NextOf, Framed;
      frontier := start;
      ghost var t := view.frontier.At(!b);
      while true
        invariant Valid() && old(trace) <= trace && view.published
        invariant view.base == old(view.base) && view.held == old(view.held)
        invariant view.frontier.At(!b) == t && view.frontier.At(b) < t <= |view.base|
        invariant frontier == view.base[view.frontier.At(b)]
        decreases t - view.frontier.At(b)
      {
        ghost var f := view.frontier.At(b);
        EarlierIsUniform(c, view, arr[..], arrivals, trace, b);
        var next := LoadLink(frontier, f);
        if next == stop {
          LinkNames(c, view, arr[..], arrivals, trace, f + 1, t);
          return;
        }
        if next.end {
          StoreLink(frontier, stop, b);
          frontier := NONE;
          return;
        }
        StoreLink(frontier, next.(shift := next.shift + 1), b);
        frontier := next.next;
      }
    }

    /** Small steps: while both chains have entries left to migrate, the earlier frontier skips to the
        next entry of its own chain, and the other chain is upgraded up to the entry before that. */
    method Migrate(frontier0: Pair<int>, cur0: nat, first0: int, ghost ci0: nat)
      requires Valid() && view.published && first0 in {0, 1}
      requires Strong(c, view, first0 == 1, ci0)
      requires frontier0.zero == view.base[view.frontier.zero] && frontier0.one == view.base[view.frontier.one]
      requires cur0 == view.base[ci0]
      modifies this`arrivals, this`view, this`trace, this`early, this`late, arr
      ensures Valid() && old(trace) <= trace && view.published
      ensures view.base == old(view.base) && view.held == old(view.held)
      ensures view.frontier == Pair(|view.base|, |view.base|)
    {
      hide Inv, Ledger, NextOf, Valid;
      Constants();
      var frontier, cur, first := frontier0, cur0, first0;
      ghost var ci := ci0;
      while true
        invariant Valid() && old(trace) <= trace && view.published
        invariant view.base == old(view.base) && view.held == old(view.held)
        invariant first in {0, 1} && Strong(c, view, first == 1, ci)
        invariant frontier.zero == view.base[view.frontier.zero] && frontier.one == view.base[view.frontier.one]
        invariant cur == view.base[ci]
        decreases |view.base| - ci
      {
        var b := first == 1;
        var firstHome, otherHome := if b then growHome else oldHome, if b then oldHome else growHome;
        ghost var f := view.frontier.At(b);
        var next := LoadLink(cur, ci);
        SkipTarget(c, view, b, ci);
        if next.end {
          StoreLink(frontier.At(b), MakeEnd(firstHome, oldShift + 1), b);
          var done := UpgradeShifts(frontier.At(!b), MakeEnd(otherHome, oldShift + 1), !b);
          return;
        }
        cur := next.next;
        ci := ci + 1;
        var zero := ReadBit(cur, ci);
        if zero == !b {
          frontier := SkipAhead(frontier, cur, next, b, ci);
          first := 1 - first;
        }
      }
    }

    /** The earlier chain skips to `cur`; the other one follows up to the entry before it. */
    method SkipAhead(frontier0: Pair<int>, cur: nat, next: Link, b: bool, ghost ci: nat) returns (frontier: Pair<int>)
      requires Valid() && view.published && 0 < ci < |view.base| && Strong(c, view, b, ci - 1)
      requires frontier0.zero == view.base[view.frontier.zero] && frontier0.one == view.base[view.frontier.one]
      requires cur == view.base[ci] && c.Bit(cur) == b && next == OldLink(c, view.base, ci)
      modifies this`arrivals, this`view, this`trace, this`early, this`late, arr
      ensures Valid() && old(trace) <= trace && view.published
      ensures view.base == old(view.base) && view.held == old(view.held)
      ensures Strong(c, view, !b, ci)
      ensures frontier.zero == view.base[view.frontier.zero] && frontier.one == view.base[view.frontier.one]
    {
      hide Inv, Ledger, NextOf, Valid;
      Constants();
      SkipTarget(c, view, b, ci - 1);
      StoreLink(frontier0.At(b), Make(cur, oldShift + 1), b);
      frontier := Set(frontier0, b, cur);
      var other := UpgradeShifts(frontier.At(!b), next, !b);
      frontier := Set(frontier, !b, other);
    }

    /** Clears the locked mark of a chain head whose rewrite lock this thread holds. */
    method ReleaseHead(b: bool)
      requires Valid() && view.published && view.held.At(b)
      modifies this`arrivals, this`view, this`trace, this`early, this`late, arr
      ensures Valid() && old(trace) <= trace && view.published
      ensures view.base == old(view.base) && view.frontier == old(view.frontier)
          && view.held == Set(old(view.held), b, false)
    {
      hide Inv, Rev, Only, NextOf, Framed;
      Arrive();
      ghost var mem := arr[..];
      HeldIsNotEnd(c, view, mem, arrivals, trace, b);
      Relocks(c, view, mem, arrivals, trace, b, false);
      var home := if b then growHome else oldHome;
      arr[home] := arr[home].(head := arr[home].head.(locked := false));
      assert arr[..] == WithHead(mem, home, Locked(mem[home].head, false));
      FramedStore(c, touched, view, arrivals, initial, mem, home, Locked(mem[home].head, false));
      FramedSame(c, touched, view, arrivals, initial, arr[..], view.(held := Set(view.held, b, false)));
      view := view.(held := Set(view.held, b, false));
      trace := trace + [Moment(view, arr[..])];
    }

    /** One attempt at the big step. */
    method TryPublish(saved: Link) returns (ok: bool, newSaved: Link, frontier: Pair<int>, cur: int, first: int)
      requires Valid() && !view.published && saved == Locked(OldLink(c, view.base, 0), true)
      requires view.held.zero <==> view.base != []
      modifies this`arrivals, this`view, this`trace, this`early, this`late, arr
      ensures Valid() && old(trace) <= trace && ok == view.published
      ensures ok ==> JustPublished(c, view, view.base) && Scanned(c, view.base, frontier, cur, first)
      ensures !ok ==> newSaved == Locked(OldLink(c, view.base, 0), true) && view.held.zero
      ensures !ok ==> |view.base| > |old(view.base)|
                      && |view.base| + |arrivals| == old(|view.base| + |arrivals|)
    {
      hide Inv, Ledger, NextOf, Framed, Valid, Scanned, Locked, OldLink, NewLink;
      ghost var seen := view.base;
      frontier, cur, first := Scan(saved, seen);
      ArriveUnpublished(seen);
      StoreOneHead(frontier, seen);
      ArriveUnpublished(seen);
      ok, newSaved := CasOldHead(saved, frontier, seen);
    }

    /** The big step, with retries whenever a push interferes. */
    method PublishSplit() returns (frontier: Pair<int>, cur: int, first: int)
      requires Valid() && !view.published && !view.held.zero
      modifies this`arrivals, this`view, this`trace, this`early, this`late, arr
      ensures Valid() && old(trace) <= trace && view.published
      ensures JustPublished(c, view, view.base) && Scanned(c, view.base, frontier, cur, first)
    {
      hide Inv, Ledger, NextOf, Framed, Valid, Scanned, Locked, OldLink, JustPublished;
      var saved := AcquireOld();
      while true
        invariant Valid() && old(trace) <= trace && !view.published
        invariant saved == Locked(OldLink(c, view.base, 0), true)
        invariant view.held.zero <==> view.base != []
        decreases |arrivals|
      {
        var ok, newSaved;
        ok, newSaved, frontier, cur, first := TryPublish(saved);
        if ok {
          return;
        }
        saved := newSaved;
      }
    }

    method ArriveUnpublished(ghost seen: seq<nat>)
      requires Valid() && !view.published && IsSuffix(seen, view.base)
      modifies this`arrivals, this`view, this`trace, this`early, this`late, arr
      ensures Valid() && old(trace) <= trace
      ensures !view.published && view.held == old(view.held) && IsSuffix(seen, view.base)
      ensures |view.base| + |arrivals| == old(|view.base| + |arrivals|)
      ensures growHome < arr.Length && arr[growHome].head == old(arr[growHome].head)
    {
      Constants();
      hide Inv, Ledger, NextOf, Framed, Valid;
      Arrive();
      SuffixTrans(seen, old(view.base), view.base);
    }

    /** From the big step to the end of the migration. */
    method MigrateAll(frontier0: Pair<int>, cur: int, first: int)
      requires Valid() && JustPublished(c, view, view.base) && Scanned(c, view.base, frontier0, cur, first)
      modifies this`arrivals, this`view, this`trace, this`early, this`late, arr
      ensures Valid() && old(trace) <= trace && view.published
      ensures view.base == old(view.base) && view.held == old(view.held)
      ensures view.frontier == Pair(|view.base|, |view.base|)
    {
      hide Inv, Ledger, NextOf, Framed, Valid;
      Constants();
      var frontier := frontier0;
      if first >= 0 {
        FirstSeen(c, view.base, 0);
        FirstEntries(c, view.base);
        var b := first == 1;
        var stop := if frontier.At(!b) != NONE then Make(frontier.At(!b), oldShift)
                    else MakeEnd(if b then growHome else oldHome, oldShift + 1);
        var f := UpgradeShifts(frontier.At(b), stop, b);
        frontier := Set(frontier, b, f);
        if frontier.zero != NONE {
          Migrate(frontier, cur, first, view.frontier.At(!b));
        }
      } else {
        EmptyChain(c, view);
      }
    }

    /** Splits the chain of the old home in two while other threads may keep pushing entries. */
    method SplitForGrow()
      requires Valid() && !view.published && !view.held.zero
      modifies this`arrivals, this`view, this`trace, this`early, this`late, arr
      // no entry is ever lost to readers
      ensures old(trace) <= trace && TraceOk(c, trace) && trace[|trace| - 1].mem == arr[..]
      ensures forall k | 0 <= k < |trace| :: Readable(c, trace[k].view, trace[k].mem)
      // every pushed entry arrived either before or after the split was published
      ensures early + late + arrivals == coming
      // both chains are finished: every link new, end markers at home, locks released
      ensures Finished(c, arr[..], oldHome, SplitChain(c, original, early, late, false))
      ensures Finished(c, arr[..], growHome, SplitChain(c, original, early, late, true))
      ensures Framed(c, touched, view, arrivals, initial, arr[..])
    {
      hide Inv, Ledger, NextOf, Framed, Valid, Readable, TraceOk, Finished, SplitChain, Rendered, ViewOk;
      var frontier, cur, first := PublishSplit();
      var zeroLocked, oneLocked := frontier.zero != NONE, frontier.one != NONE;
      MigrateAll(frontier, cur, first);
      if oneLocked {
        ReleaseHead(true);
      }
      if zeroLocked {
        ReleaseHead(false);
      }
      Outcome();
    }

    lemma Outcome()
      requires Valid() && view.published && view.frontier == Pair(|view.base|, |view.base|)
          && view.held == Pair(false, false)
      ensures TraceOk(c, trace) && trace != [] && trace[|trace| - 1].mem == arr[..]
      ensures forall k | 0 <= k < |trace| :: Readable(c, trace[k].view, trace[k].mem)
      ensures early + late + arrivals == coming
      ensures Finished(c, arr[..], oldHome, SplitChain(c, original, early, late, false))
      ensures Finished(c, arr[..], growHome, SplitChain(c, original, early, late, true))
      ensures Framed(c, touched, view, arrivals, initial, arr[..])
    {
      hide NextOf, Framed, Readable, Finished, Rendered, ViewOk, Only, Rev, Step, OneStore;
      AllReadable(c, trace);
      FinishedChain(c, view, arr[..], false);
      FinishedChain(c, view, arr[..], true);
    }

    method ReadBit(e: nat, ghost i: nat) returns (zero: bool)
      requires Valid() && i < |view.base| && e == view.base[i]
      ensures zero == !c.Bit(view.base[i])
    {
      hide Inv, Ledger, NextOf, Framed;
      ReadsKey(c, view, arr[..], arrivals, trace, i);
      zero := arr[e].key.lo % Pow2(oldShift + 1) == oldHome;
    }
  }

  /** The strong invariant of the migration: the earlier frontier stands right before the other one,
      and everything from there to `ci` goes to the other chain. */
  ghost predicate Strong(c: Split, v: View, b: bool, ci: nat) {
    && v.frontier.At(b) + 1 == v.frontier.At(!b) <= ci < |v.base|
    && forall i | v.frontier.At(!b) <= i <= ci :: c.Bit(v.base[i]) == !b
  }

  lemma SkipTarget(c: Split, v: View, b: bool, ci: nat)
    requires Strong(c, v, b, ci)
    ensures ci + 1 == |v.base| ==> NextOf(c, v.base, v.frontier.At(b) + 1, b) == |v.base|
    ensures ci + 1 < |v.base| && c.Bit(v.base[ci + 1]) == b ==> NextOf(c, v.base, v.frontier.At(b) + 1, b) == ci + 1
  {
    if ci + 1 == |v.base| || c.Bit(v.base[ci + 1]) == b {
      NextOfUnique(c, v.base, v.frontier.At(b) + 1, b, ci + 1);
    }
  }

  lemma HeldIsNotEnd(c: Split, v: View, mem: seq<Slot>, arrivals: seq<nat>, trace: seq<Moment>, b: bool)
    requires Inv(c, v, mem, arrivals, trace) && v.published && v.held.At(b)
    ensures c.Home(b) < |mem| && !mem[c.Home(b)].head.end
  {
    assert ChainOk(c, v, b) && RenderedPre(c, v, mem, b);
  }

  lemma StartsOk(c: Split, chain: seq<nat>, arrivals: seq<nat>, mem: seq<Slot>)
    requires ViewOk(c, Start(chain)) && Rendered(c, Start(chain), mem)
    requires NoDup(arrivals) && forall i | 0 <= i < |arrivals| :: c.Belongs(arrivals[i]) && arrivals[i] !in chain
    ensures c.oldHome < c.growHome < |mem|
    ensures Inv(c, Start(chain), mem, arrivals, [Moment(Start(chain), mem)])
    ensures Ledger(c, Start(chain), chain, arrivals, [], [], arrivals)
    ensures Framed(c, (set e | e in chain) + (set e | e in arrivals), Start(chain), arrivals, mem, mem)
  {
    assert [] + chain == chain && [] + [] + arrivals == arrivals;
  }

  /** Entries never leave the structure while a split is under way. */
  lemma {:induction false} EntriesStay(c: Split, trace: seq<Moment>, j: nat, k: nat)
    requires TraceOk(c, trace) && j <= k < |trace|
    ensures Present(trace[j].view) <= Present(trace[k].view)
    decreases k - j
  {
    hide ViewOk, Rendered, Step, OneStore, Present;
    if j < k {
      EntriesStay(c, trace, j, k - 1);
      StepKeepsEntries(c, trace[k - 1].view, trace[k].view);
    }
  }

  /** The finished chains are disjoint, each holds only entries of its own hash bit, and together
      they hold exactly the entries there at first and those pushed since. */
  lemma SplitIsPartition(c: Split, original: seq<nat>, early: seq<nat>, late: seq<nat>)
    ensures multiset(SplitChain(c, original, early, late, false)) + multiset(SplitChain(c, original, early, late, true))
            == multiset(original) + multiset(early) + multiset(late)
    ensures forall b: bool, e | e in SplitChain(c, original, early, late, b) :: c.Bit(e) == b
  {
    hide Only, Rev;
    OnlyPartitions(c, late);
    OnlyPartitions(c, Rev(early) + original);
    RevPermutes(early);
    assert multiset(Rev(early) + original) == multiset(Rev(early)) + multiset(original);
    RevPermutes(Only(c, late, false));
    RevPermutes(Only(c, late, true));
    assert multiset(SplitChain(c, original, early, late, false))
        == multiset(Only(c, late, false)) + multiset(Only(c, Rev(early) + original, false));
    assert multiset(SplitChain(c, original, early, late, true))
        == multiset(Only(c, late, true)) + multiset(Only(c, Rev(early) + original, true));
    assert multiset(SplitChain(c, original, early, late, false)) + multiset(SplitChain(c, original, early, late, true))
        == multiset(late) + multiset(Rev(early) + original);
    forall b: bool, e | e in SplitChain(c, original, early, late, b) ensures c.Bit(e) == b {
      RevPermutes(Only(c, late, b));
      OnlyBits(c, late, b);
      OnlyBits(c, Rev(early) + original, b);
      assert e in multiset(Only(c, late, b)) + multiset(Only(c, Rev(early) + original, b));
    }
  }

  lemma {:induction false} OnlyBits(c: Split, s: seq<nat>, b: bool)
    ensures forall e | e in Only(c, s, b) :: c.Bit(e) == b
  {
    if s != [] {
      OnlyBits(c, s[1..], b);
    }
  }

  lemma {:induction false} OnlyPartitions(c: Split, s: seq<nat>)
    ensures multiset(Only(c, s, false)) + multiset(Only(c, s, true)) == multiset(s)
  {
    if s != [] {
      OnlyPartitions(c, s[1..]);
      assert s == [s[0]] + s[1..];
      var b := c.Bit(s[0]);
      assert Only(c, s, b) == [s[0]] + Only(c, s[1..], b);
      assert Only(c, s, !b) == Only(c, s[1..], !b);
    }
  }

  lemma {:induction false} RevPermutes(s: seq<nat>)
    ensures multiset(Rev(s)) == multiset(s)
  {
    if s != [] {
      RevPermutes(s[1..]);
      assert s == [s[0]] + s[1..];
    }
  }

  lemma AllReadable(c: Split, trace: seq<Moment>)
    requires TraceOk(c, trace)
    ensures forall k | 0 <= k < |trace| :: Readable(c, trace[k].view, trace[k].mem)
  {
    hide ViewOk, Rendered, Readable, Step, OneStore;
    forall k | 0 <= k < |trace| ensures Readable(c, trace[k].view, trace[k].mem) {
      NothingLost(c, trace[k].view, trace[k].mem);
    }
  }

  lemma EmptyChain(c: Split, v: View)
    requires JustPublished(c, v, v.base) && v.base == []
    ensures v.frontier == Pair(|v.base|, |v.base|)
  {
  }

  lemma FirstEntries(c: Split, seen: seq<nat>)
    requires seen != []
    ensures var b := c.Bit(seen[0]); NextOf(c, seen, 0, b) == 0 < NextOf(c, seen, 0, !b) <= |seen|
    ensures var b := c.Bit(seen[0]); NextOf(c, seen, 0, !b) < |seen| ==> c.Bit(seen[NextOf(c, seen, 0, !b)]) == !b
  {
  }

  lemma EarlierIsUniform(c: Split, v: View, mem: seq<Slot>, arrivals: seq<nat>, trace: seq<Moment>, b: bool)
    requires Inv(c, v, mem, arrivals, trace) && v.published && v.frontier.At(b) < v.frontier.At(!b)
    ensures v.frontier.At(!b) <= |v.base|
    ensures forall i | v.frontier.At(b) <= i < v.frontier.At(!b) :: c.Bit(v.base[i]) == b
    ensures v.frontier.At(b) + 1 < v.frontier.At(!b) ==>
        NextOf(c, v.base, v.frontier.At(b) + 1, b) == v.frontier.At(b) + 1
    ensures v.frontier.At(b) + 1 == |v.base| ==> NextOf(c, v.base, v.frontier.At(b) + 1, b) == |v.base|
  {
    FrontierInRange(c, v, b);
    FrontierInRange(c, v, !b);
  }

  /** Links of the original chain are equal only if they lead to the same place. */
  lemma LinkNames(c: Split, v: View, mem: seq<Slot>, arrivals: seq<nat>, trace: seq<Moment>, i: nat, j: nat)
    requires Inv(c, v, mem, arrivals, trace) && i <= |v.base| && j <= |v.base|
    ensures OldLink(c, v.base, i) == OldLink(c, v.base, j) ==> i == j
  {
  }
}
