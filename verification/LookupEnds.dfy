/** A lookup ends. Wherever it stands when the other threads stop, it comes to an answer within a number of
    iterations bounded by the length of the chain; and a lookup that starts from the head then answers
    rightly. */
module LookupEnds {
  import opened Arith
  import opened Slots
  import opened SplitModel
  import opened SplitReaders
  import opened ChainSplit
  import opened SplitLookup

  /** The hash has the old home, and home `b` with one more bit. */
  ghost predicate Seeks(c: Split, key: HashedKey, b: bool) {
    key.lo % Pow2(c.oldShift) == c.oldHome && key.lo % Pow2(c.NewShift()) == c.Home(b)
  }

  /** Where a lookup can be, whatever the history: by the old shift on the original chain, never behind the
      entry it holds; by the new shift on its own chain or the original one, holding an entry of its own. */
  ghost predicate Wanders(c: Split, v: View, b: bool, l: Look) {
    && (l.at.Head? ==> l.held.Head?) && (l.shift == c.oldShift || l.shift == c.NewShift())
    && (l.shift == c.oldShift ==> WandersOld(c, v, l))
    && (l.shift == c.NewShift() ==> WandersNew(c, v, b, l))
  }

  ghost predicate WandersOld(c: Split, v: View, l: Look) {
    && l.home == c.oldHome && (l.at.At? ==> l.at.slot in v.base)
    && (l.held.At? ==> l.held.slot in v.base)
    && (l.held.At? && l.at.At? && l.held != l.at ==> Ahead(v.base, l.held.slot, l.at.slot))
  }

  ghost predicate WandersNew(c: Split, v: View, b: bool, l: Look) {
    && v.published && l.home == c.Home(b) && (l.at.At? ==> l.at.slot in Order(v, b))
    && (l.held.At? ==> l.held.slot in Order(v, b) && c.Bit(l.held.slot) == b)
  }

  /** Whatever the other threads do next. */
  lemma StepKeepsWanders(c: Split, v: View, w: View, b: bool, l: Look)
    requires ViewOk(c, v) && Step(c, v, w) && Wanders(c, v, b, l)
    ensures Wanders(c, w, b, l)
  {
    hide ViewOk, FrontierOk, Between;
    StepKeepsEntries(c, v, w);
    if e :| c.Belongs(e) && e !in Present(v) && w == Pushed(c, v, e) {
      if v.published {
        assert w.base == v.base;
        if c.Bit(e) == b {
          assert Order(w, b) == [e] + Order(v, b);
        }
      } else if l.held.At? && l.at.At? && l.held != l.at {
        AheadKept(v.base, e, l.held.slot, l.at.slot);
      }
    } else {
      assert w.base == v.base && (v.published ==> w.published && w.pre == v.pre);
    }
  }

  // ---------------------------------------------------------------------------------------
  // Progress while memory stands still
  // ---------------------------------------------------------------------------------------

  ghost function Index(s: seq<nat>, e: nat): (i: nat)
    requires e in s
    ensures i < |s| && s[i] == e
  {
    var i :| 0 <= i < |s| && s[i] == e;
    i
  }

  lemma IndexIs(s: seq<nat>, i: nat)
    requires NoDup(s) && i < |s|
    ensures Index(s, s[i]) == i
  {
  }

  /** The entries of chain `b` and the original chain that are still ahead of a place. */
  ghost function Left(v: View, b: bool, p: Place): nat {
    match p
    case Head => |v.pre.At(b)| + |v.base| + 1
    case At(e) =>
      if e in v.base then |v.base| - Index(v.base, e)
      else if e in v.pre.At(b) then |v.base| + |v.pre.At(b)| - Index(v.pre.At(b), e)
      else 0
  }

  /** The link of an entry of the original chain has been rewritten. */
  ghost predicate Rewritten(c: Split, v: View, e: nat) {
    e in v.base && Index(v.base, e) < v.frontier.At(c.Bit(e))
  }

  /** On an entry of the other chain that its own chain no longer leads to. */
  ghost predicate Strayed(c: Split, v: View, b: bool, p: Place) {
    p.At? && p.slot in v.base && c.Bit(p.slot) != b && Index(v.base, p.slot) < v.frontier.At(b)
  }

  /** A bound on the iterations still to come. */
  ghost function Bound(c: Split, v: View, b: bool, l: Look): nat {
    var whole := Left(v, b, Head);
    if l.shift == c.NewShift() then Left(v, b, l.at) + if Strayed(c, v, b, l.at) then whole else 0
    else if !v.published then Left(v, b, l.at)
    else if l.at.Head? then whole + 1
    else if Rewritten(c, v, l.at.slot) then whole + if l.at == l.held then 1 else 2
    else whole + 3 + Left(v, b, l.at)
  }

  /** The loop goes on, closer to the end, or has an answer. */
  ghost predicate Better(c: Split, v: View, st: seq<State>, key: HashedKey, b: bool, l: Look, out: Outcome) {
    match out
    case Continue(l') => Wanders(c, v, b, l') && Bound(c, v, b, l') < Bound(c, v, b, l)
    case Found(y) => y in Present(v) && c.Belongs(y) && y < |st| && st[y].Visible? && c.keys[y] == key
    case NotFound => true
  }

  ghost predicate Advances(c: Split, v: View, mem: seq<Slot>, st: seq<State>, key: HashedKey, b: bool, l: Look) {
    && Placed(mem, l) && |st| == |mem| && (Load(mem, l).end || Load(mem, l).next < |mem|)
    && Better(c, v, st, key, b, l, Follow(mem, st, key, l, Load(mem, l)))
  }

  /** Old-shift links, before the split is published: on to the next entry or the end. */
  lemma OldUnpublished(c: Split, v: View, mem: seq<Slot>, st: seq<State>, key: HashedKey, b: bool, l: Look)
    requires ViewOk(c, v) && Rendered(c, v, mem) && Seeks(c, key, b) && |st| == |mem| && Wanders(c, v, b, l)
    requires l.shift == c.oldShift && !v.published
    ensures Advances(c, v, mem, st, key, b, l)
  {
    var i := if l.at.Head? then 0 else Index(v.base, l.at.slot) + 1;
    if i > 0 {
      assert ChainIs(mem, v.base[i - 1], OldLink(c, v.base, i));
    }
    if i < |v.base| {
      FollowOn(c, v, mem, st, key, b, l, Load(mem, l), i);
    } else {
      ModUnique(c.oldHome, Pow2(c.oldShift), 0, c.oldHome);
    }
  }

  /** An old-shift link to position `k` of the original chain. */
  lemma FollowOn(c: Split, v: View, mem: seq<Slot>, st: seq<State>, key: HashedKey, b: bool, l: Look, next: Link,
      k: nat)
    requires ViewOk(c, v) && KeysAgree(c, mem) && Seeks(c, key, b) && |st| == |mem| && Wanders(c, v, b, l)
    requires l.shift == c.oldShift && k < |v.base| && !next.end && next.shift == c.oldShift && next.next == v.base[k]
    requires l.at.At? ==> Index(v.base, l.at.slot) + 1 == k
    ensures next.next < |mem|
    ensures match Follow(mem, st, key, l, next)
      case Continue(l') =>
        Wanders(c, v, b, l') && l'.shift == l.shift && l'.at == At(v.base[k]) && (l'.held == l'.at || l'.held == l.held)
      case Found(y) => y in Present(v) && c.Belongs(y) && y < |st| && st[y].Visible? && c.keys[y] == key
      case NotFound => false
  {
    var e := v.base[k];
    assert c.Belongs(e);
    Homes(c, e);
    if l.held.At? {
      if l.held == l.at {
        assert Ahead(v.base, l.held.slot, e);
      } else {
        var i, j :| 0 <= i < j < |v.base| && v.base[i] == l.held.slot && v.base[j] == l.at.slot;
        assert j == k - 1 && i < k;
        assert Ahead(v.base, l.held.slot, e);
      }
    }
  }

  /** Once the split is published: the head and rewritten links ask for one more bit, which a lookup that
      holds no entry here, or one before it, can use at once. */
  lemma OldPublished(c: Split, v: View, mem: seq<Slot>, st: seq<State>, key: HashedKey, b: bool, l: Look)
    requires ViewOk(c, v) && Rendered(c, v, mem) && Seeks(c, key, b) && |st| == |mem| && Wanders(c, v, b, l)
    requires l.shift == c.oldShift && v.published
    ensures Advances(c, v, mem, st, key, b, l)
  {
    if l.at.Head? {
      HeadInRange(c, v, mem, false);
    } else {
      var p := Index(v.base, l.at.slot);
      assert ChainIs(mem, v.base[p], LinkAt(c, v, p));
      LinkInRange(c, v, p);
      if Rewritten(c, v, l.at.slot) {
        if l.held.At? && l.held != l.at {
          HeldRewritten(c, v, l.held.slot, l.at.slot);
        }
      } else if p + 1 < |v.base| {
        FollowOn(c, v, mem, st, key, b, l, Load(mem, l), p + 1);
        IndexIs(v.base, p + 1);
      } else {
        ModUnique(c.oldHome, Pow2(c.oldShift), 0, c.oldHome);
      }
    }
  }

  /** Links are rewritten from the front: if one further on has been, so has the one that is held. */
  lemma HeldRewritten(c: Split, v: View, h: nat, e: nat)
    requires ViewOk(c, v) && v.published && Ahead(v.base, h, e) && Rewritten(c, v, e)
    ensures Rewritten(c, v, h)
  {
    var q, p :| 0 <= q < p < |v.base| && v.base[q] == h && v.base[p] == e;
    IndexIs(v.base, q);
    IndexIs(v.base, p);
    if q >= v.frontier.At(c.Bit(h)) {
      LinkPastFrontier(c, v, c.Bit(h), p);
    }
  }

  /** A new-shift link to an entry of the own chain. */
  lemma FollowOwn(c: Split, v: View, mem: seq<Slot>, st: seq<State>, key: HashedKey, b: bool, l: Look, next: Link)
    requires ViewOk(c, v) && KeysAgree(c, mem) && Seeks(c, key, b) && |st| == |mem| && Wanders(c, v, b, l)
    requires l.shift == c.NewShift() == next.shift && !next.end
    requires next.next in Order(v, b) && c.Belongs(next.next) && c.Bit(next.next) == b
    ensures next.next < |mem|
    ensures match Follow(mem, st, key, l, next)
      case Continue(l') => Wanders(c, v, b, l') && l'.shift == l.shift && l'.at == At(next.next)
      case Found(y) => y in Present(v) && c.Belongs(y) && y < |st| && st[y].Visible? && c.keys[y] == key
      case NotFound => false
  {
    Homes(c, next.next);
  }

  /** An old-shift link, on the part of the original chain that both chains share. */
  lemma FollowShared(c: Split, v: View, mem: seq<Slot>, st: seq<State>, key: HashedKey, b: bool, l: Look, next: Link)
    requires ViewOk(c, v) && KeysAgree(c, mem) && Seeks(c, key, b) && |st| == |mem| && Wanders(c, v, b, l)
    requires l.shift == c.NewShift() && next.shift == c.oldShift && !next.end
    requires next.next in v.base && c.Belongs(next.next)
    ensures next.next < |mem|
    ensures match Follow(mem, st, key, l, next)
      case Continue(l') => Wanders(c, v, b, l') && l'.shift == l.shift && l'.at == At(next.next)
      case Found(y) => y in Present(v) && c.Belongs(y) && y < |st| && st[y].Visible? && c.keys[y] == key
      case NotFound => false
  {
    Homes(c, next.next);
    assert next.next in Order(v, b);
  }

  lemma OldEnd(c: Split, b: bool)
    requires c.Ok()
    ensures c.Home(b) % Pow2(c.oldShift) == c.oldHome
  {
    ModUnique(c.growHome, Pow2(c.oldShift), 1, c.oldHome);
    ModUnique(c.oldHome, Pow2(c.oldShift), 0, c.oldHome);
  }

  /** By the new shift, at the head or an entry pushed since. */
  lemma NewPre(c: Split, v: View, mem: seq<Slot>, st: seq<State>, key: HashedKey, b: bool, l: Look)
    requires ViewOk(c, v) && Rendered(c, v, mem) && Seeks(c, key, b) && |st| == |mem| && Wanders(c, v, b, l)
    requires l.shift == c.NewShift() && (l.at.At? ==> l.at.slot !in v.base)
    ensures Advances(c, v, mem, st, key, b, l)
  {
    assert RenderedPre(c, v, mem, b) && ChainOk(c, v, b);
    var pre := v.pre.At(b);
    var i := if l.at.Head? then 0 else Index(pre, l.at.slot) + 1;
    if i > 0 {
      assert ChainIs(mem, pre[i - 1], PreLink(c, v, b, i));
    }
    var next := Load(mem, l);
    assert next.(locked := false) == PreLink(c, v, b, i).(locked := false);
    if i < |pre| {
      assert c.Belongs(pre[i]) && pre[i] !in v.base;
      FollowOwn(c, v, mem, st, key, b, l, next);
      IndexIs(pre, i);
    } else {
      var k := NextOf(c, v.base, 0, b);
      if k < |v.base| {
        assert c.Belongs(v.base[k]);
        FollowOwn(c, v, mem, st, key, b, l, next);
        IndexIs(v.base, k);
      }
    }
  }

  /** By the new shift, at an entry whose link is still the old one. */
  lemma NewShared(c: Split, v: View, mem: seq<Slot>, st: seq<State>, key: HashedKey, b: bool, l: Look, p: nat)
    requires ViewOk(c, v) && KeysAgree(c, mem) && Seeks(c, key, b) && |st| == |mem| && Wanders(c, v, b, l)
    requires v.published && l.shift == c.NewShift() && p < |v.base| && l.at == At(v.base[p]) && Placed(mem, l)
    requires Load(mem, l) == LinkAt(c, v, p) == OldLink(c, v.base, p + 1)
    ensures Advances(c, v, mem, st, key, b, l)
  {
    hide Follow;
    IndexIs(v.base, p);
    if p + 1 < |v.base| {
      assert c.Belongs(v.base[p + 1]);
      FollowShared(c, v, mem, st, key, b, l, Load(mem, l));
      IndexIs(v.base, p + 1);
      assert FrontierOk(c, v, b) by {
        assert ChainOk(c, v, b);
      }
    } else {
      EndShared(c, mem, st, key, b, l, Load(mem, l));
    }
  }

  lemma EndShared(c: Split, mem: seq<Slot>, st: seq<State>, key: HashedKey, b: bool, l: Look, next: Link)
    requires c.Ok() && |st| == |mem| && l.shift == c.NewShift() && l.home == c.Home(b)
    requires next == MakeEnd(c.oldHome, c.oldShift)
    ensures Follow(mem, st, key, l, next) == NotFound
  {
    OldEnd(c, b);
  }

  /** By the new shift, at an entry of the original chain. */
  lemma NewBase(c: Split, v: View, mem: seq<Slot>, st: seq<State>, key: HashedKey, b: bool, l: Look)
    requires ViewOk(c, v) && Rendered(c, v, mem) && Seeks(c, key, b) && |st| == |mem| && Wanders(c, v, b, l)
    requires l.shift == c.NewShift() && l.at.At? && l.at.slot in v.base
    ensures Advances(c, v, mem, st, key, b, l)
  {
    var p := Index(v.base, l.at.slot);
    assert ChainOk(c, v, b) && ChainOk(c, v, !b);
    assert ChainIs(mem, v.base[p], LinkAt(c, v, p));
    LinkInRange(c, v, p);
    var next := Load(mem, l);
    if next.shift == c.oldShift {
      NewShared(c, v, mem, st, key, b, l, p);
    } else if c.Bit(l.at.slot) == b {
      var k := NextOf(c, v.base, p + 1, b);
      if k < |v.base| {
        FollowOwn(c, v, mem, st, key, b, l, next);
        IndexIs(v.base, k);
      }
    } else {
      NewStray(c, v, mem, st, key, b, l);
    }
  }

  /** By the new shift, at an entry of the other chain whose link has been rewritten: back to the entry held,
      unless the next one cannot be referenced. */
  lemma NewStray(c: Split, v: View, mem: seq<Slot>, st: seq<State>, key: HashedKey, b: bool, l: Look)
    requires ViewOk(c, v) && Rendered(c, v, mem) && Seeks(c, key, b) && |st| == |mem| && Wanders(c, v, b, l)
    requires l.shift == c.NewShift() && l.at.At? && l.at.slot in v.base && c.Bit(l.at.slot) != b
    requires Load(mem, l).shift == c.NewShift()
    ensures Advances(c, v, mem, st, key, b, l)
  {
    var p := Index(v.base, l.at.slot);
    assert ChainIs(mem, v.base[p], LinkAt(c, v, p));
    LinkInRange(c, v, p);
    if v.frontier.At(b) < p {
      LinkPastFrontier(c, v, b, p);
    }
    assert ChainOk(c, v, b);
    assert Strayed(c, v, b, l.at);
    hide ViewOk, Follow, LinkAt;
    BackToHeld(c, v, b, l);
    var next, k := Load(mem, l), NextOf(c, v.base, p + 1, !b);
    FollowStray(c, v, mem, st, key, b, l, next, k);
    if k < |v.base| {
      OnAcross(c, v, b, l, p, k);
    }
  }

  /** A rewritten link of the other chain leads to none of the own entries, nor to an end that fits. */
  lemma FollowStray(c: Split, v: View, mem: seq<Slot>, st: seq<State>, key: HashedKey, b: bool, l: Look, next: Link,
      k: nat)
    requires ViewOk(c, v) && KeysAgree(c, mem) && Seeks(c, key, b) && |st| == |mem| && WandersNew(c, v, b, l)
    requires l.shift == c.NewShift() && k <= |v.base| && (k < |v.base| ==> c.Bit(v.base[k]) != b)
    requires next == if k < |v.base| then Make(v.base[k], c.NewShift()) else MakeEnd(c.Home(!b), c.NewShift())
    ensures next.end || next.next < |mem|
    ensures var out := Follow(mem, st, key, l, next);
      out == Continue(l.(at := l.held)) || (k < |v.base| && out == Continue(l.(at := At(v.base[k]))))
  {
    if k < |v.base| {
      assert c.Belongs(v.base[k]);
      Homes(c, v.base[k]);
    }
  }

  lemma OnAcross(c: Split, v: View, b: bool, l: Look, p: nat, k: nat)
    requires ViewOk(c, v) && Wanders(c, v, b, l) && l.shift == c.NewShift() && Strayed(c, v, b, l.at)
    requires p < k < |v.base| && l.at == At(v.base[p])
    ensures var l' := l.(at := At(v.base[k])); Wanders(c, v, b, l') && Bound(c, v, b, l') < Bound(c, v, b, l)
  {
    IndexIs(v.base, p);
    IndexIs(v.base, k);
    assert v.base[k] in Order(v, b);
  }

  lemma BackToHeld(c: Split, v: View, b: bool, l: Look)
    requires ViewOk(c, v) && Wanders(c, v, b, l) && l.shift == c.NewShift() && Strayed(c, v, b, l.at)
    ensures Wanders(c, v, b, l.(at := l.held)) && Bound(c, v, b, l.(at := l.held)) < Bound(c, v, b, l)
  {
    assert Left(v, b, l.at) >= 1;
    assert Left(v, b, l.held) <= Left(v, b, Head);
  }

  /** One iteration, from anywhere: memory standing still, it brings the lookup closer to its end. */
  lemma Iterates(c: Split, v: View, mem: seq<Slot>, st: seq<State>, key: HashedKey, b: bool, l: Look)
    requires ViewOk(c, v) && Rendered(c, v, mem) && Seeks(c, key, b) && |st| == |mem| && Wanders(c, v, b, l)
    ensures Advances(c, v, mem, st, key, b, l)
  {
    hide ViewOk, Rendered, Advances;
    if l.shift == c.oldShift {
      if v.published {
        OldPublished(c, v, mem, st, key, b, l);
      } else {
        OldUnpublished(c, v, mem, st, key, b, l);
      }
    } else if l.at.At? && l.at.slot in v.base {
      NewBase(c, v, mem, st, key, b, l);
    } else {
      NewPre(c, v, mem, st, key, b, l);
    }
  }

  // ---------------------------------------------------------------------------------------
  // Memory stands still
  // ---------------------------------------------------------------------------------------

  /** Successive states of a lookup while memory and states stand still. */
  ghost predicate Still(mem: seq<Slot>, st: seq<State>, key: HashedKey, looks: seq<Look>) {
    looks != [] && forall k | 0 < k < |looks| :: Continues(mem, st, key, looks[k - 1], looks[k])
  }

  /** An answer, and a right one if it is a slot. */
  ghost predicate Answers(c: Split, v: View, st: seq<State>, key: HashedKey, out: Outcome) {
    match out
    case Continue(_) => false
    case Found(y) => y in Present(v) && c.Belongs(y) && y < |st| && st[y].Visible? && c.keys[y] == key
    case NotFound => true
  }

  lemma StillMore(mem: seq<Slot>, st: seq<State>, key: HashedKey, l: Look, looks: seq<Look>)
    requires Still(mem, st, key, looks) && Continues(mem, st, key, l, looks[0])
    ensures Still(mem, st, key, [l] + looks)
  {
    hide Continues;
  }

  /** From anywhere, a lookup comes to an answer within the bound. */
  lemma {:induction false} StillEnds(c: Split, v: View, mem: seq<Slot>, st: seq<State>, key: HashedKey, b: bool,
      l: Look) returns (looks: seq<Look>, out: Outcome)
    requires ViewOk(c, v) && Rendered(c, v, mem) && Seeks(c, key, b) && |st| == |mem| && Wanders(c, v, b, l)
    ensures Still(mem, st, key, looks) && looks[0] == l && |looks| <= Bound(c, v, b, l) + 1
    ensures Becomes(mem, st, key, looks[|looks| - 1], out) && Answers(c, v, st, key, out)
    decreases Bound(c, v, b, l)
  {
    hide ViewOk, Rendered, Wanders, Bound, Follow, Seeks;
    Iterates(c, v, mem, st, key, b, l);
    out := Follow(mem, st, key, l, Load(mem, l));
    looks := [l];
    if out.Continue? {
      var first := out.look;
      looks, out := StillEnds(c, v, mem, st, key, b, first);
      StillMore(mem, st, key, l, looks);
      looks := [l] + looks;
    }
  }

  lemma BoundIs(c: Split, v: View, b: bool, l: Look)
    ensures Bound(c, v, b, l) <= 2 * |Order(v, b)| + 5
  {
  }

  // ---------------------------------------------------------------------------------------
  // A lookup that starts while memory stands still answers rightly
  // ---------------------------------------------------------------------------------------

  ghost predicate OnPath(c: Split, v: View, b: bool, l: Look) {
    if l.shift == c.oldShift then !v.published else l.shift == c.NewShift() && !Strayed(c, v, b, l.at)
  }

  /** A lookup on its path does not stray. */
  lemma StaysOnPath(c: Split, v: View, b: bool, l: Look, l': Look)
    requires Wanders(c, v, b, l) && OnPath(c, v, b, l) && Wanders(c, v, b, l') && l'.shift >= l.shift
    requires Bound(c, v, b, l') < Bound(c, v, b, l)
    ensures OnPath(c, v, b, l')
  {
    assert Left(v, b, l.at) <= Left(v, b, Head);
  }

  /** An entry that the lookup should find. */
  ghost predicate Target(c: Split, v: View, st: seq<State>, key: HashedKey, x: nat) {
    x in Present(v) && c.Belongs(x) && x < |st| && st[x].Visible? && c.keys[x] == key
  }

  lemma StrayIndex(c: Split, v: View, x: nat, l: Look) returns (i: nat, j: nat)
    requires LookOk(c, v, x, l) && l.shift == c.NewShift() && l.at.At? && c.Bit(l.at.slot) != c.Bit(x)
    ensures i < j < |v.base| && v.base[i] == l.at.slot && v.base[j] == x && After(c, v.base, l.at.slot, c.Bit(x))
  {
    i, j :| 0 <= i < j < |v.base| && v.base[i] == l.at.slot && v.base[j] == x;
  }

  /** On its path, a lookup never leaves behind the entry it should find. */
  lemma PathReaches(c: Split, v: View, mem: seq<Slot>, st: seq<State>, x: nat, l: Look)
    requires ViewOk(c, v) && Rendered(c, v, mem) && LookOk(c, v, x, l) && Seen(c, st, x)
    requires OnPath(c, v, c.Bit(x), l)
    ensures Reaches(c, v, mem, st, x, l)
  {
    hide ViewOk, Rendered, Reaches;
    if l.shift == c.oldShift {
      OldWalker(c, v, mem, st, x, l);
    } else if l.at.At? && c.Bit(l.at.slot) != c.Bit(x) {
      SharedReaches(c, v, mem, st, x, l);
    } else {
      NewWalker(c, v, mem, st, x, l);
    }
  }

  lemma SharedReaches(c: Split, v: View, mem: seq<Slot>, st: seq<State>, x: nat, l: Look)
    requires ViewOk(c, v) && Rendered(c, v, mem) && LookOk(c, v, x, l) && Seen(c, st, x)
    requires l.shift == c.NewShift() && l.at.At? && c.Bit(l.at.slot) != c.Bit(x) && !Strayed(c, v, c.Bit(x), l.at)
    ensures Reaches(c, v, mem, st, x, l)
  {
    hide Good, Follow, NextOf, After;
    var b := c.Bit(x);
    var i, j := StrayIndex(c, v, x, l);
    IndexIs(v.base, i);
    assert ChainOk(c, v, b);
    assert ChainIs(mem, v.base[i], LinkAt(c, v, i));
    LinkPastFrontier(c, v, b, i);
    AfterMore(c, v.base, i, i + 1, b);
    FollowOld(c, v, mem, st, x, l, Load(mem, l), i + 1, j);
  }

  lemma {:induction false} PathEnds(c: Split, v: View, mem: seq<Slot>, st: seq<State>, key: HashedKey, b: bool,
      l: Look, x: nat) returns (looks: seq<Look>, out: Outcome)
    requires ViewOk(c, v) && Rendered(c, v, mem) && Seeks(c, key, b) && |st| == |mem| && Wanders(c, v, b, l)
    requires OnPath(c, v, b, l) && (Target(c, v, st, key, x) ==> LookOk(c, v, x, l))
    ensures Still(mem, st, key, looks) && looks[0] == l && |looks| <= Bound(c, v, b, l) + 1
    ensures Becomes(mem, st, key, looks[|looks| - 1], out) && Answers(c, v, st, key, out)
    ensures Target(c, v, st, key, x) ==> out.Found?
    decreases Bound(c, v, b, l)
  {
    hide ViewOk, Rendered, Wanders, Bound, Seeks, LookOk, OnPath;
    Iterates(c, v, mem, st, key, b, l);
    if Target(c, v, st, key, x) {
      BitIs(c, v, mem, key, b, x);
      PathReaches(c, v, mem, st, x, l);
    }
    out := Follow(mem, st, key, l, Load(mem, l));
    looks := [l];
    if out.Continue? {
      var first := out.look;
      StaysOnPath(c, v, b, l, first);
      looks, out := PathEnds(c, v, mem, st, key, b, first, x);
      StillMore(mem, st, key, l, looks);
      looks := [l] + looks;
    }
  }

  lemma BitIs(c: Split, v: View, mem: seq<Slot>, key: HashedKey, b: bool, x: nat)
    requires ViewOk(c, v) && Rendered(c, v, mem) && Seeks(c, key, b) && c.Belongs(x) && c.keys[x] == key
    ensures c.Bit(x) == b && |mem| == |c.keys|
  {
    Homes(c, x);
  }

  function Fresh(key: HashedKey, shift: nat): Look { Look(shift, key.lo % Pow2(shift), Head, Head) }

  lemma FreshWanders(c: Split, v: View, b: bool, key: HashedKey, shift: nat)
    requires ViewOk(c, v) && Seeks(c, key, b) && (shift == c.oldShift || (shift == c.NewShift() && v.published))
    ensures Wanders(c, v, b, Fresh(key, shift))
    ensures forall x | x in Present(v) && c.Belongs(x) && c.keys[x] == key :: LookOk(c, v, x, Fresh(key, shift))
  {
    forall x | x in Present(v) && c.Belongs(x) && c.keys[x] == key ensures LookOk(c, v, x, Fresh(key, shift)) {
      Homes(c, x);
    }
  }

  /** From the head of its home, under the shift of the chain or the one before: the answer is a visible entry
      of the chain with the key, if there is one, and "not found" if there is none. */
  lemma FreshEnds(c: Split, v: View, mem: seq<Slot>, st: seq<State>, key: HashedKey, b: bool, shift: nat)
    returns (looks: seq<Look>, out: Outcome)
    requires ViewOk(c, v) && Rendered(c, v, mem) && Seeks(c, key, b) && |st| == |mem|
    requires shift == c.oldShift || (shift == c.NewShift() && v.published)
    ensures Still(mem, st, key, looks) && looks[0] == Fresh(key, shift) && |looks| <= |Order(v, b)| + 3
    ensures Becomes(mem, st, key, looks[|looks| - 1], out) && Answers(c, v, st, key, out)
    ensures out.Found? <==> exists x :: Target(c, v, st, key, x)
  {
    hide ViewOk, Rendered, Wanders, LookOk, Order, Still, Pow2;
    var l := Fresh(key, shift);
    FreshWanders(c, v, b, key, shift);
    var x := if x :| Target(c, v, st, key, x) then x else 0;
    FreshBound(c, v, b, l);
    if OnPath(c, v, b, l) {
      looks, out := PathEnds(c, v, mem, st, key, b, l, x);
    } else {
      OneMoreBit(c, v, mem, st, key, l);
      var l' := Fresh(key, c.NewShift());
      FreshWanders(c, v, b, key, c.NewShift());
      FreshBound(c, v, b, l');
      looks, out := PathEnds(c, v, mem, st, key, b, l', x);
      StillMore(mem, st, key, l, looks);
      StillSize(mem, st, key, l, looks);
      looks := [l] + looks;
    }
    assert out.Found? ==> Target(c, v, st, key, out.slot);
  }

  lemma StillSize(mem: seq<Slot>, st: seq<State>, key: HashedKey, l: Look, looks: seq<Look>)
    requires Still(mem, st, key, looks)
    ensures ([l] + looks)[|[l] + looks| - 1] == looks[|looks| - 1]
  {
  }

  lemma FreshBound(c: Split, v: View, b: bool, l: Look)
    requires l.at.Head?
    ensures OnPath(c, v, b, l) ==> Bound(c, v, b, l) <= |Order(v, b)| + 1
  {
  }

  lemma OneMoreBit(c: Split, v: View, mem: seq<Slot>, st: seq<State>, key: HashedKey, l: Look)
    requires ViewOk(c, v) && Rendered(c, v, mem) && v.published && |st| == |mem|
    requires l == Fresh(key, c.oldShift) && key.lo % Pow2(c.oldShift) == c.oldHome
    ensures Continues(mem, st, key, l, Fresh(key, c.NewShift()))
  {
    HeadInRange(c, v, mem, false);
  }

  /** Every home on the way has a newer shift than the one that led there. */
  ghost predicate Lagging(mem: seq<Slot>, key: HashedKey, from: nat, to: nat) {
    forall k | from <= k < to :: HeadPast(mem, key.lo % Pow2(k), k)
  }

  ghost predicate HeadPast(mem: seq<Slot>, home: nat, shift: nat) {
    && home < |mem| && mem[home].head.shift > shift
    && (mem[home].head.end || mem[home].head.next < |mem|)
  }

  lemma {:induction false} CatchesUp(mem: seq<Slot>, st: seq<State>, key: HashedKey, shift: nat, lag: nat,
      looks: seq<Look>) returns (more: seq<Look>)
    requires |st| == |mem| && Lagging(mem, key, shift, shift + lag)
    requires Still(mem, st, key, looks) && looks[0] == Fresh(key, shift + lag)
    ensures Still(mem, st, key, more) && more[0] == Fresh(key, shift) && |more| == |looks| + lag
    ensures more[|more| - 1] == looks[|looks| - 1]
    decreases lag
  {
    more := looks;
    if lag > 0 {
      more := CatchesUp(mem, st, key, shift + 1, lag - 1, looks);
      NextBit(mem, st, key, shift);
      StillMore(mem, st, key, Fresh(key, shift), more);
      more := [Fresh(key, shift)] + more;
    }
  }

  lemma NextBit(mem: seq<Slot>, st: seq<State>, key: HashedKey, shift: nat)
    requires |st| == |mem| && HeadPast(mem, key.lo % Pow2(shift), shift)
    ensures Continues(mem, st, key, Fresh(key, shift), Fresh(key, shift + 1))
  {
  }

  /** At whatever moment of a split the other threads stop: a lookup by the shift of its chain, or by any
      smaller one, ends within a bound in the shifts it lags and the length of the chain. It finds a visible
      entry of the chain with its key if there is one, and ends with "not found" if there is none. */
  lemma AnswersRightly(c: Split, v: View, mem: seq<Slot>, st: seq<State>, key: HashedKey, b: bool, shift: nat)
    returns (looks: seq<Look>, out: Outcome)
    requires ViewOk(c, v) && Rendered(c, v, mem) && Seeks(c, key, b) && |st| == |mem|
    requires if shift <= c.oldShift then Lagging(mem, key, shift, c.oldShift) else shift == c.NewShift() && v.published
    ensures Still(mem, st, key, looks) && looks[0] == Fresh(key, shift)
    ensures |looks| <= (if shift <= c.oldShift then c.oldShift - shift else 0) + |Order(v, b)| + 3
    ensures Becomes(mem, st, key, looks[|looks| - 1], out) && Answers(c, v, st, key, out)
    ensures out.Found? <==> exists x :: Target(c, v, st, key, x)
  {
    hide ViewOk, Rendered, Seeks, Order, Still, Lagging;
    if shift <= c.oldShift {
      looks, out := FreshEnds(c, v, mem, st, key, b, c.oldShift);
      looks := CatchesUp(mem, st, key, shift, c.oldShift - shift, looks);
    } else {
      looks, out := FreshEnds(c, v, mem, st, key, b, shift);
    }
  }

  // ---------------------------------------------------------------------------------------
  // A lookup under way in any history
  // ---------------------------------------------------------------------------------------

  lemma {:induction false} LaterWanders(c: Split, trace: seq<Moment>, b: bool, l: Look, s: nat, t: nat)
    requires TraceOk(c, trace) && s <= t < |trace| && Wanders(c, trace[s].view, b, l)
    ensures Wanders(c, trace[t].view, b, l)
    decreases t - s
  {
    hide ViewOk, Rendered, Step, OneStore, Wanders;
    if s < t {
      LaterWanders(c, trace, b, l, s, t - 1);
      StepKeepsWanders(c, trace[t - 1].view, trace[t].view, b, l);
    }
  }

  lemma MemSize(c: Split, v: View, mem: seq<Slot>)
    requires Rendered(c, v, mem)
    ensures |mem| == |c.keys|
  {
  }

  lemma {:induction false} RunWanders(c: Split, trace: seq<Moment>, states: seq<seq<State>>, key: HashedKey, b: bool,
      looks: seq<Look>, times: seq<nat>, marks: seq<nat>, k: nat)
    requires TraceOk(c, trace) && Runs(c, trace, states, key, looks, times, marks) && Seeks(c, key, b) && k < |looks|
    ensures Wanders(c, trace[times[k]].view, b, looks[k])
  {
    hide ViewOk, Rendered, Step, OneStore, Wanders, Seeks, Follow, Bound;
    if k == 0 {
      assert ViewOk(c, trace[times[0]].view);
      assert looks[0] == Fresh(key, looks[0].shift);
      FreshWanders(c, trace[times[0]].view, b, key, looks[0].shift);
    } else {
      RunWanders(c, trace, states, key, b, looks, times, marks, k - 1);
      var m := trace[times[k - 1]];
      assert ViewOk(c, m.view) && Rendered(c, m.view, m.mem);
      assert Continues(m.mem, states[marks[k - 1]], key, looks[k - 1], looks[k]);
      MemSize(c, m.view, m.mem);
      Iterates(c, m.view, m.mem, states[marks[k - 1]], key, b, looks[k - 1]);
      LaterWanders(c, trace, b, looks[k], times[k - 1], times[k]);
    }
  }

  /** The last iteration of a run comes to an answer. */
  ghost predicate Concludes(c: Split, trace: seq<Moment>, states: seq<seq<State>>, key: HashedKey, looks: seq<Look>,
      times: seq<nat>, marks: seq<nat>, out: Outcome) {
    var n := |looks| - 1;
    && 0 <= n < |times| && n < |marks| && times[n] < |trace| && marks[n] < |states|
    && Becomes(trace[times[n]].mem, states[marks[n]], key, looks[n], out)
    && Answers(c, trace[times[n]].view, states[marks[n]], key, out)
  }

  /** What the last iteration of a run comes to. */
  lemma LastLook(c: Split, trace: seq<Moment>, states: seq<seq<State>>, key: HashedKey, b: bool, looks: seq<Look>,
      times: seq<nat>, marks: seq<nat>) returns (out: Outcome)
    requires TraceOk(c, trace) && Runs(c, trace, states, key, looks, times, marks) && Seeks(c, key, b)
    ensures Becomes(trace[times[|looks| - 1]].mem, states[marks[|looks| - 1]], key, looks[|looks| - 1], out)
    ensures out.Continue? ==> Wanders(c, trace[|trace| - 1].view, b, out.look)
    ensures !out.Continue? ==> Concludes(c, trace, states, key, looks, times, marks, out)
  {
    hide ViewOk, Rendered, Step, OneStore, Wanders, Seeks, Follow, Bound, Begins, Continues;
    var k := |looks| - 1;
    RunWanders(c, trace, states, key, b, looks, times, marks, k);
    var m := trace[times[k]];
    assert ViewOk(c, m.view) && Rendered(c, m.view, m.mem);
    MemSize(c, m.view, m.mem);
    Iterates(c, m.view, m.mem, states[marks[k]], key, b, looks[k]);
    out := Follow(m.mem, states[marks[k]], key, looks[k], Load(m.mem, looks[k]));
    if out.Continue? {
      LaterWanders(c, trace, b, out.look, times[k], |trace| - 1);
    }
  }

  /** Any lookup, wherever the history has led it, comes to an answer once the other threads stop: the run goes
      on by a bounded number of iterations, all of them at the last moment. */
  lemma RunEnds(c: Split, trace: seq<Moment>, states: seq<seq<State>>, key: HashedKey, b: bool, looks: seq<Look>,
      times: seq<nat>, marks: seq<nat>)
    returns (more: seq<Look>, still: seq<nat>, out: Outcome)
    requires TraceOk(c, trace) && Runs(c, trace, states, key, looks, times, marks) && Seeks(c, key, b)
    ensures |still| == |more| <= 2 * |Order(trace[|trace| - 1].view, b)| + 6
    ensures forall k | 0 <= k < |still| :: still[k] == |trace| - 1
    ensures Runs(c, trace, states, key, looks + more, times + still, marks + still)
    ensures Concludes(c, trace, states, key, looks + more, times + still, marks + still, out)
  {
    hide ViewOk, Rendered, Step, OneStore, Wanders, Seeks, Bound, Becomes, Still, Concludes, Begins, Order;
    out := LastLook(c, trace, states, key, b, looks, times, marks);
    if out.Continue? {
      var m, st, l := trace[|trace| - 1], states[|trace| - 1], out.look;
      assert ViewOk(c, m.view) && Rendered(c, m.view, m.mem);
      MemSize(c, m.view, m.mem);
      more, out := StillEnds(c, m.view, m.mem, st, key, b, l);
      BoundIs(c, m.view, b, l);
      still := seq(|more|, _ => |trace| - 1);
      RunsOn(c, trace, states, key, looks, times, marks, more, still, out);
    } else {
      more, still := [], [];
      assert looks + more == looks && times + still == times && marks + still == marks;
    }
  }

  lemma RunsOn(c: Split, trace: seq<Moment>, states: seq<seq<State>>, key: HashedKey, looks: seq<Look>,
      times: seq<nat>, marks: seq<nat>, more: seq<Look>, still: seq<nat>, out: Outcome)
    requires trace != [] && Runs(c, trace, states, key, looks, times, marks) && |still| == |more|
    requires forall k | 0 <= k < |still| :: still[k] == |trace| - 1
    requires Still(trace[|trace| - 1].mem, states[|trace| - 1], key, more)
    requires Becomes(trace[|trace| - 1].mem, states[|trace| - 1], key, more[|more| - 1], out)
    requires Answers(c, trace[|trace| - 1].view, states[|trace| - 1], key, out)
    requires var k := |looks| - 1; Continues(trace[times[k]].mem, states[marks[k]], key, looks[k], more[0])
    ensures Runs(c, trace, states, key, looks + more, times + still, marks + still)
    ensures Concludes(c, trace, states, key, looks + more, times + still, marks + still, out)
  {
    hide Continues, Begins, Becomes, Answers;
    var n := |looks|;
    TimesOn(times, marks, still, |trace|);
    forall k | 0 < k < n + |more|
      ensures Continues(trace[(times + still)[k - 1]].mem, states[(marks + still)[k - 1]], key, (looks + more)[k - 1],
          (looks + more)[k])
    {
      LookOn(c, trace, states, key, looks, times, marks, more, still, k);
    }
  }

  lemma TimesOn(times: seq<nat>, marks: seq<nat>, still: seq<nat>, n: nat)
    requires |times| == |marks| && n > 0 && (forall k | 0 <= k < |times| :: times[k] <= marks[k] < n)
    requires forall k | 0 < k < |times| :: marks[k - 1] <= times[k]
    requires forall k | 0 <= k < |still| :: still[k] == n - 1
    ensures forall k | 0 <= k < |times| + |still| :: (times + still)[k] <= (marks + still)[k] < n
    ensures forall k | 0 < k < |times| + |still| :: (marks + still)[k - 1] <= (times + still)[k]
  {
  }

  lemma LookOn(c: Split, trace: seq<Moment>, states: seq<seq<State>>, key: HashedKey, looks: seq<Look>,
      times: seq<nat>, marks: seq<nat>, more: seq<Look>, still: seq<nat>, k: nat)
    requires trace != [] && Runs(c, trace, states, key, looks, times, marks) && |still| == |more|
    requires forall k | 0 <= k < |still| :: still[k] == |trace| - 1
    requires Still(trace[|trace| - 1].mem, states[|trace| - 1], key, more)
    requires var k := |looks| - 1; Continues(trace[times[k]].mem, states[marks[k]], key, looks[k], more[0])
    requires 0 < k < |looks| + |more|
    ensures (times + still)[k - 1] < |trace| && (marks + still)[k - 1] < |states|
    ensures Continues(trace[(times + still)[k - 1]].mem, states[(marks + still)[k - 1]], key, (looks + more)[k - 1],
        (looks + more)[k])
  {
    hide Continues, Begins;
    var n := |looks|;
    if k > n {
      assert Continues(trace[|trace| - 1].mem, states[|trace| - 1], key, more[k - n - 1], more[k - n]);
    } else if k < n {
      assert Continues(trace[times[k - 1]].mem, states[marks[k - 1]], key, looks[k - 1], looks[k]);
    }
  }
}
