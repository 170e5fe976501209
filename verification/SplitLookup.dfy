/** AutoHyperClockTable::Lookup running against a chain that another thread is splitting and to which
    other threads push entries. Lookup takes no lock; each of its loads may see a later moment. */
module SplitLookup {
  import opened Arith
  import opened Slots
  import opened SplitModel
  import opened ChainSplit

  datatype Place = Head | At(slot: nat)

  /** The local variables of the full lookup loop: how many hash bits it goes by, the home they
      select, the position reached, and the last entry on the chain that it holds a reference to. */
  datatype Look = Look(shift: nat, home: nat, at: Place, held: Place)

  datatype Outcome = Continue(look: Look) | Found(slot: nat) | NotFound

  predicate Placed(mem: seq<Slot>, l: Look) {
    l.home < |mem| && (l.at.At? ==> l.at.slot < |mem|)
  }

  function Load(mem: seq<Slot>, l: Look): Link
    requires Placed(mem, l)
  {
    if l.at.Head? then mem[l.home].head else mem[l.at.slot].chain
  }

  predicate Shared(s: State) { s.Visible? || s.Invisible? }

  /** What the loop does with the link it loaded; `st` are the states of the slots when MatchAndRef looks
      at the next one, which may be later. */
  function Follow(mem: seq<Slot>, st: seq<State>, key: HashedKey, l: Look, next: Link): Outcome
    requires |st| == |mem| && (next.end || next.next < |mem|)
  {
    if next.shift > l.shift && l.at == l.held then
      // the newer shift applies to this chain: use one more hash bit and restart
      Continue(Look(l.shift + 1, key.lo % Pow2(l.shift + 1), Head, Head))
    else if next.shift > l.shift then
      Continue(l.(at := l.held))
    else
      var home := if next.shift < l.shift then l.home % Pow2(next.shift) else l.home;
      if next.end then
        if next.next == home then NotFound else Continue(l.(at := l.held))
      else
        Match(mem[next.next].key, st[next.next], key, l, next, home)
  }

  /** MatchAndRef on the next entry: nothing known, full match, match on home, or neither. */
  function Match(found: HashedKey, state: State, key: HashedKey, l: Look, next: Link, home: nat): Outcome {
    if !Shared(state) then
      // under construction: step over it, without a reference
      Continue(l.(at := At(next.next)))
    else if found == key && state.Visible? then Found(next.next)
    else if found.lo % Pow2(next.shift) != home then Continue(l.(at := l.held))
    else if next.shift != l.shift && found.lo % Pow2(l.shift) != l.home then Continue(l.(at := At(next.next)))
    else Continue(l.(at := At(next.next), held := At(next.next)))
  }

  /** A lookup takes hold of every entry of its own chain that it can refer to, and of no other: that is
      where it goes back to when it has lost its way. */
  lemma HoldsOwn(mem: seq<Slot>, st: seq<State>, key: HashedKey, l: Look, next: Link)
    requires |st| == |mem| && !next.end && next.next < |mem| && next.shift <= l.shift
    ensures var e, out := next.next, Follow(mem, st, key, l, next);
      if mem[e].key == key && st[e].Visible? then out == Found(e)
      else if Shared(st[e]) && mem[e].key.lo % Pow2(l.shift) == l.home then
        out == Continue(l.(at := At(e), held := At(e)))
      else out.Continue? && out.look.held == l.held
  {
    ModPow2Nested(mem[next.next].key.lo, next.shift, l.shift);
  }

  // ---------------------------------------------------------------------------------------
  // What a lookup in progress can still rely on
  // ---------------------------------------------------------------------------------------

  ghost predicate Ahead(s: seq<nat>, e: nat, x: nat) {
    exists i, j :: 0 <= i < j < |s| && s[i] == e && s[j] == x
  }

  lemma AheadKept(s: seq<nat>, y: nat, e: nat, x: nat)
    requires Ahead(s, e, x)
    ensures Ahead([y] + s, e, x)
  {
    var i, j :| 0 <= i < j < |s| && s[i] == e && s[j] == x;
    var t := [y] + s;
    assert t[i + 1] == e && t[j + 1] == x;
  }

  /** The entries of chain `b` in the order in which a reader meets them. */
  ghost function Order(v: View, b: bool): seq<nat> { v.pre.At(b) + v.base }

  /** A lookup by the old shift stands before the target on the old chain, perhaps further on than the
      entry it holds a reference to. */
  ghost predicate OldOk(c: Split, v: View, x: nat, l: Look) {
    && l.home == c.oldHome && (l.at.Head? ==> l.held.Head?)
    && (l.at.At? ==> Ahead(v.base, l.at.slot, x))
    && (l.held.At? ==> Ahead(v.base, l.held.slot, x))
  }

  /** Entry `e` comes after some entry of chain `b`. */
  ghost predicate After(c: Split, base: seq<nat>, e: nat, b: bool) {
    exists f, i :: 0 <= f < i < |base| && base[i] == e && c.Bit(base[f]) == b
  }

  /** A lookup by the new shift holds a reference on its own chain, before the target; it may have
      gone further, over entries under construction and, along the shared tail, over entries of the other
      chain. */
  ghost predicate NewOk(c: Split, v: View, x: nat, l: Look) {
    var b := c.Bit(x);
    && v.published && l.home == c.Home(b) && (l.at.Head? ==> l.held.Head?)
    && (l.held.At? ==> c.Bit(l.held.slot) == b && Ahead(Order(v, b), l.held.slot, x))
    && (l.at.At? ==>
          if c.Bit(l.at.slot) == b then Ahead(Order(v, b), l.at.slot, x)
          else Ahead(v.base, l.at.slot, x) && After(c, v.base, l.at.slot, b))
  }

  ghost predicate LookOk(c: Split, v: View, x: nat, l: Look) {
    && x in Present(v) && c.Belongs(x)
    && (l.shift == c.oldShift || l.shift == c.NewShift())
    && (l.shift == c.oldShift ==> OldOk(c, v, x, l))
    && (l.shift == c.NewShift() ==> NewOk(c, v, x, l))
  }

  /** The one dangerous constellation: on the chain being split, an entry of the target's own chain and one
      of the other chain come before the target, and the first entry of the other chain behind it is under
      construction. A lookup that strayed onto the former can be led to the latter. */
  ghost predicate Exposed(c: Split, base: seq<nat>, x: nat, st: seq<State>) {
    exists f, e, j | 0 <= f < e < j < |base| ::
      Trapped(c, base, x, f, e, j) && base[Behind(c, base, j)] < |st| && !Shared(st[base[Behind(c, base, j)]])
  }

  ghost function Behind(c: Split, base: seq<nat>, j: nat): nat
    requires j < |base|
  {
    NextOf(c, base, j + 1, !c.Bit(base[j]))
  }

  ghost predicate Trapped(c: Split, base: seq<nat>, x: nat, f: nat, e: nat, j: nat) {
    && f < e < j < |base| && base[j] == x && c.Bit(base[f]) == c.Bit(x) && c.Bit(base[e]) != c.Bit(x)
    && Behind(c, base, j) < |base|
  }

  /** Whatever the other threads do next, the lookup is still on its way to the target. */
  lemma StepKeepsLook(c: Split, v: View, w: View, x: nat, l: Look)
    requires ViewOk(c, v) && Step(c, v, w) && LookOk(c, v, x, l)
    ensures LookOk(c, w, x, l)
  {
    hide ViewOk, FrontierOk, Between;
    var b := c.Bit(x);
    StepKeepsEntries(c, v, w);
    if e :| c.Belongs(e) && e !in Present(v) && w == Pushed(c, v, e) {
      if v.published {
        assert w.base == v.base;
        if c.Bit(e) == b {
          assert Order(w, b) == [e] + Order(v, b);
          KeptAt(Order(v, b), e, l.held, x);
          KeptAt(Order(v, b), e, l.at, x);
        }
      } else {
        KeptAt(v.base, e, l.held, x);
        KeptAt(v.base, e, l.at, x);
      }
    } else {
      assert w.base == v.base && (v.published ==> w.published && w.pre == v.pre);
    }
  }

  lemma KeptAt(s: seq<nat>, y: nat, p: Place, x: nat)
    ensures p.At? && Ahead(s, p.slot, x) ==> Ahead([y] + s, p.slot, x)
  {
    if p.At? && Ahead(s, p.slot, x) {
      AheadKept(s, y, p.slot, x);
    }
  }

  // ---------------------------------------------------------------------------------------
  // One iteration of the lookup loop
  // ---------------------------------------------------------------------------------------

  /** The loop goes on towards the target, or has found the key. */
  ghost predicate Good(c: Split, v: View, st: seq<State>, x: nat, out: Outcome) {
    match out
    case Continue(l) => LookOk(c, v, x, l)
    case Found(y) => y < |st| && st[y].Visible? && y < |c.keys| && x < |c.keys| && c.keys[y] == c.keys[x]
    case NotFound => false
  }

  /** The states of the slots at one moment, with the target visible. */
  ghost predicate Seen(c: Split, st: seq<State>, x: nat) {
    |st| == |c.keys| && x < |st| && st[x].Visible?
  }

  lemma Homes(c: Split, e: nat)
    requires c.Ok() && c.Belongs(e)
    ensures c.keys[e].lo % Pow2(c.oldShift) == c.oldHome
    ensures c.keys[e].lo % Pow2(c.NewShift()) == c.Home(c.Bit(e))
    ensures c.growHome % Pow2(c.oldShift) == c.oldHome && c.oldHome % Pow2(c.oldShift) == c.oldHome
  {
    c.BitHome(e);
    ModUnique(c.growHome, Pow2(c.oldShift), 1, c.oldHome);
    ModUnique(c.oldHome, Pow2(c.oldShift), 0, c.oldHome);
  }

  /** An old-shift link to position `k` of the original chain, the target being at `j` or later. */
  lemma FollowOld(c: Split, v: View, mem: seq<Slot>, st: seq<State>, x: nat, l: Look, next: Link, k: nat, j: nat)
    requires ViewOk(c, v) && LookOk(c, v, x, l) && Seen(c, st, x) && KeysAgree(c, mem)
    requires k <= j < |v.base| && v.base[j] == x
    requires !next.end && next.shift == c.oldShift && next.next == v.base[k]
    requires l.shift == c.NewShift() ==> After(c, v.base, v.base[k], c.Bit(x))
    ensures next.next < |mem| && Good(c, v, st, x, Follow(mem, st, c.keys[x], l, next))
  {
    var e := v.base[k];
    assert c.Belongs(e);
    Homes(c, e);
    Homes(c, x);
    if k < j {
      assert Ahead(v.base, e, x);
      var b := c.Bit(x);
      var s := Order(v, b);
      assert s[|v.pre.At(b)| + k] == e && s[|v.pre.At(b)| + j] == x;
      assert Ahead(s, e, x);
    }
  }

  /** A new-shift link to position `k` of the target's own chain. */
  lemma FollowNew(c: Split, v: View, mem: seq<Slot>, st: seq<State>, x: nat, l: Look, next: Link, k: nat, j: nat)
    requires ViewOk(c, v) && LookOk(c, v, x, l) && Seen(c, st, x) && KeysAgree(c, mem) && l.shift == c.NewShift()
    requires k <= j < |Order(v, c.Bit(x))| && Order(v, c.Bit(x))[j] == x
    requires !next.end && next.shift == c.NewShift() && next.next == Order(v, c.Bit(x))[k]
    requires c.Belongs(next.next) && c.Bit(next.next) == c.Bit(x)
    ensures next.next < |mem| && Good(c, v, st, x, Follow(mem, st, c.keys[x], l, next))
  {
    Homes(c, next.next);
    assert k < j ==> Ahead(Order(v, c.Bit(x)), next.next, x);
  }

  /** A link with a newer shift than the lookup goes by sends it back to the head, one bit wiser, or first
      to the entry it holds. */
  lemma Restart(c: Split, v: View, mem: seq<Slot>, st: seq<State>, x: nat, l: Look, next: Link)
    requires ViewOk(c, v) && LookOk(c, v, x, l) && l.shift == c.oldShift && v.published && |st| == |mem|
    requires next.shift == c.NewShift() && (next.end || next.next < |mem|)
    ensures Good(c, v, st, x, Follow(mem, st, c.keys[x], l, next))
  {
    Homes(c, x);
  }

  /** A lookup that strayed onto an entry of the other chain notices when that entry's link was
      rewritten, because neither entries nor end marker of the other chain fit its home, unless it is led
      to an entry under construction, whose home it cannot check. */
  lemma Stray(c: Split, v: View, mem: seq<Slot>, st: seq<State>, x: nat, l: Look, next: Link, i: nat, j: nat)
    requires ViewOk(c, v) && LookOk(c, v, x, l) && KeysAgree(c, mem) && Seen(c, st, x) && v.published
    requires l.shift == c.NewShift() == next.shift && !Exposed(c, v.base, x, st)
    requires i < j < |v.base| && l.at == At(v.base[i]) && v.base[j] == x && c.Bit(v.base[i]) != c.Bit(x)
    requires After(c, v.base, v.base[i], c.Bit(x))
    requires var k := NextOf(c, v.base, i + 1, !c.Bit(x));
      if k < |v.base| then !next.end && next.next == v.base[k] else next.end && next.next == c.Home(!c.Bit(x))
    ensures next.end || next.next < |mem|
    ensures Good(c, v, st, x, Follow(mem, st, c.keys[x], l, next))
  {
    hide Exposed, After, NextOf;
    Homes(c, x);
    var k := NextOf(c, v.base, i + 1, !c.Bit(x));
    if k < |v.base| {
      assert c.Belongs(v.base[k]);
      Homes(c, v.base[k]);
      if !Shared(st[v.base[k]]) {
        LedBefore(c, v.base, x, st, i, j, k);
      }
    }
  }

  /** Outside the dangerous constellation, an entry under construction that it is led to is before the target. */
  lemma LedBefore(c: Split, base: seq<nat>, x: nat, st: seq<State>, i: nat, j: nat, k: nat)
    requires i < j < |base| && NoDup(base) && base[j] == x && c.Bit(base[i]) != c.Bit(x)
    requires After(c, base, base[i], c.Bit(x)) && !Exposed(c, base, x, st)
    requires k == NextOf(c, base, i + 1, !c.Bit(x)) < |base| && base[k] < |st| && !Shared(st[base[k]])
    ensures k < j && Ahead(base, base[k], x) && After(c, base, base[k], c.Bit(x))
  {
    hide Exposed, After;
    AfterMore(c, base, i, k, c.Bit(x));
    if k > j {
      LedBehind(c, base, x, st, i, j, k);
    }
  }

  lemma LedBehind(c: Split, base: seq<nat>, x: nat, st: seq<State>, i: nat, j: nat, k: nat)
    requires i < j < k < |base| && NoDup(base) && base[j] == x && c.Bit(base[i]) != c.Bit(x)
    requires After(c, base, base[i], c.Bit(x)) && k == NextOf(c, base, i + 1, !c.Bit(x))
    requires base[k] < |st| && !Shared(st[base[k]])
    ensures Exposed(c, base, x, st)
  {
    NextOfUnique(c, base, j + 1, !c.Bit(x), k);
    hide NextOf;
    var f, i' :| 0 <= f < i' < |base| && base[i'] == base[i] && c.Bit(base[f]) == c.Bit(x);
    assert i' == i;
    assert Trapped(c, base, x, f, i, j);
  }

  lemma AfterMore(c: Split, base: seq<nat>, i: nat, k: nat, b: bool)
    requires i < k < |base| && NoDup(base) && (After(c, base, base[i], b) || c.Bit(base[i]) == b)
    ensures After(c, base, base[k], b)
  {
    if c.Bit(base[i]) != b {
      var f, i' :| 0 <= f < i' < |base| && base[i'] == base[i] && c.Bit(base[f]) == b;
      assert i' == i;
      assert 0 <= f < k && base[k] == base[k];
    }
  }

  ghost predicate KeysAgree(c: Split, mem: seq<Slot>) {
    |mem| == |c.keys| && forall e | 0 <= e < |mem| :: mem[e].key == c.keys[e]
  }

  ghost predicate Reaches(c: Split, v: View, mem: seq<Slot>, st: seq<State>, x: nat, l: Look) {
    && Placed(mem, l) && x < |c.keys| && |st| == |mem|
    && var next := Load(mem, l);
    (next.end || next.next < |mem|) && Good(c, v, st, x, Follow(mem, st, c.keys[x], l, next))
  }

  /** From position `i` of the original chain, an old link leads on and a new link is a restart. */
  lemma OldWalker(c: Split, v: View, mem: seq<Slot>, st: seq<State>, x: nat, l: Look)
    requires ViewOk(c, v) && Rendered(c, v, mem) && LookOk(c, v, x, l) && Seen(c, st, x) && l.shift == c.oldShift
    ensures Reaches(c, v, mem, st, x, l)
  {
    if l.at.Head? {
      if v.published {
        HeadInRange(c, v, mem, false);
        Restart(c, v, mem, st, x, l, Load(mem, l));
      } else {
        var j :| 0 <= j < |v.base| && v.base[j] == x;
        FollowOld(c, v, mem, st, x, l, Load(mem, l), 0, j);
      }
    } else {
      var i, j :| 0 <= i < j < |v.base| && v.base[i] == l.at.slot && v.base[j] == x;
      assert c.Belongs(v.base[i]);
      if v.published {
        assert ChainIs(mem, v.base[i], LinkAt(c, v, i));
        LinkInRange(c, v, i);
        if Load(mem, l).shift == c.NewShift() {
          Restart(c, v, mem, st, x, l, Load(mem, l));
        } else {
          FollowOld(c, v, mem, st, x, l, Load(mem, l), i + 1, j);
        }
      } else {
        assert ChainIs(mem, v.base[i + 1 - 1], OldLink(c, v.base, i + 1));
        FollowOld(c, v, mem, st, x, l, Load(mem, l), i + 1, j);
      }
    }
  }

  lemma HeadInRange(c: Split, v: View, mem: seq<Slot>, b: bool)
    requires ViewOk(c, v) && Rendered(c, v, mem) && v.published
    ensures c.Home(b) < |mem| && mem[c.Home(b)].head.shift == c.NewShift()
    ensures mem[c.Home(b)].head.end || mem[c.Home(b)].head.next < |mem|
  {
    assert RenderedPre(c, v, mem, b) && ChainOk(c, v, b);
    var k := NextOf(c, v.base, 0, b);
    assert k < |v.base| ==> c.Belongs(v.base[k]);
    assert v.pre.At(b) != [] ==> c.Belongs(v.pre.At(b)[0]);
  }

  lemma LinkInRange(c: Split, v: View, i: nat)
    requires ViewOk(c, v) && v.published && i < |v.base|
    ensures var l := LinkAt(c, v, i);
      && (l.end || c.Belongs(l.next))
      && (l.shift == c.NewShift() || (l == OldLink(c, v.base, i + 1) && l.shift == c.oldShift))
      && (l.shift == c.NewShift() ==>
            var b := c.Bit(v.base[i]);
            var k := NextOf(c, v.base, i + 1, b);
            if k < |v.base| then l == Make(v.base[k], c.NewShift()) && c.Bit(l.next) == b
            else l == MakeEnd(c.Home(b), c.NewShift()))
  {
    var k := NextOf(c, v.base, i + 1, c.Bit(v.base[i]));
    assert k < |v.base| ==> c.Belongs(v.base[k]);
    assert i + 1 < |v.base| ==> c.Belongs(v.base[i + 1]);
  }

  /** A lookup by the new shift that has run ahead over the other chain's entries. */
  lemma StrayWalker(c: Split, v: View, mem: seq<Slot>, st: seq<State>, x: nat, l: Look)
    requires ViewOk(c, v) && Rendered(c, v, mem) && LookOk(c, v, x, l) && Seen(c, st, x)
    requires l.shift == c.NewShift() && l.at.At? && c.Bit(l.at.slot) != c.Bit(x) && !Exposed(c, v.base, x, st)
    ensures Reaches(c, v, mem, st, x, l)
  {
    hide Exposed;
    var i, j :| 0 <= i < j < |v.base| && v.base[i] == l.at.slot && v.base[j] == x;
    assert ChainIs(mem, v.base[i], LinkAt(c, v, i));
    LinkInRange(c, v, i);
    if Load(mem, l).shift == c.NewShift() {
      Stray(c, v, mem, st, x, l, Load(mem, l), i, j);
    } else {
      AfterMore(c, v.base, i, i + 1, c.Bit(x));
      FollowOld(c, v, mem, st, x, l, Load(mem, l), i + 1, j);
    }
  }

  lemma TargetIndex(c: Split, v: View, x: nat) returns (j: nat)
    requires ViewOk(c, v) && v.published && x in Present(v)
    ensures j < |Order(v, c.Bit(x))| && Order(v, c.Bit(x))[j] == x
  {
    var b := c.Bit(x);
    assert ChainOk(c, v, b) && ChainOk(c, v, !b);
    assert x !in v.pre.At(!b);
    assert x in Order(v, b);
    j :| 0 <= j < |Order(v, b)| && Order(v, b)[j] == x;
  }

  /** The link that leads past the first `i` entries pushed on the target's chain. */
  lemma FollowPre(c: Split, v: View, mem: seq<Slot>, st: seq<State>, x: nat, l: Look, next: Link, i: nat, j: nat)
    requires ViewOk(c, v) && v.published && LookOk(c, v, x, l) && Seen(c, st, x) && KeysAgree(c, mem)
        && l.shift == c.NewShift()
    requires i <= j < |Order(v, c.Bit(x))| && Order(v, c.Bit(x))[j] == x
    requires i <= |v.pre.At(c.Bit(x))|
    requires var p := PreLink(c, v, c.Bit(x), i); next.(locked := p.locked) == p
    ensures !next.end && next.next < |mem| && Good(c, v, st, x, Follow(mem, st, c.keys[x], l, next))
  {
    var b := c.Bit(x);
    var n := |v.pre.At(b)|;
    assert ChainOk(c, v, b);
    if i < n {
      assert c.Belongs(v.pre.At(b)[i]);
      FollowNew(c, v, mem, st, x, l, next, i, j);
    } else {
      var k := NextOf(c, v.base, 0, b);
      assert Order(v, b)[j] == v.base[j - n];
      assert k <= j - n;
      assert c.Belongs(v.base[k]);
      FollowNew(c, v, mem, st, x, l, next, n + k, j);
    }
  }

  /** A lookup by the new shift at the head of its chain, or at an entry of its chain. */
  lemma NewWalker(c: Split, v: View, mem: seq<Slot>, st: seq<State>, x: nat, l: Look)
    requires ViewOk(c, v) && Rendered(c, v, mem) && LookOk(c, v, x, l) && Seen(c, st, x)
    requires l.shift == c.NewShift() && (l.at.At? ==> c.Bit(l.at.slot) == c.Bit(x))
    ensures Reaches(c, v, mem, st, x, l)
  {
    var b := c.Bit(x);
    var n := |v.pre.At(b)|;
    assert RenderedPre(c, v, mem, b);
    if l.at.Head? {
      var j := TargetIndex(c, v, x);
      HeadInRange(c, v, mem, b);
      FollowPre(c, v, mem, st, x, l, Load(mem, l), 0, j);
    } else {
      var i, j :| 0 <= i < j < |Order(v, b)| && Order(v, b)[i] == l.at.slot && Order(v, b)[j] == x;
      if i < n {
        assert ChainIs(mem, v.pre.At(b)[i + 1 - 1], PreLink(c, v, b, i + 1));
        FollowPre(c, v, mem, st, x, l, Load(mem, l), i + 1, j);
      } else {
        BaseWalker(c, v, mem, st, x, l, i - n, j - n);
      }
    }
  }

  lemma OrderAt(v: View, b: bool, k: nat)
    requires k < |v.base|
    ensures |v.pre.At(b)| + k < |Order(v, b)| && Order(v, b)[|v.pre.At(b)| + k] == v.base[k]
  {
  }

  lemma BaseWalker(c: Split, v: View, mem: seq<Slot>, st: seq<State>, x: nat, l: Look, i: nat, j: nat)
    requires ViewOk(c, v) && Rendered(c, v, mem) && v.published && LookOk(c, v, x, l) && Seen(c, st, x)
    requires l.shift == c.NewShift()
    requires i < j < |v.base| && l.at == At(v.base[i]) && v.base[j] == x && c.Bit(v.base[i]) == c.Bit(x)
    ensures Reaches(c, v, mem, st, x, l)
  {
    hide Good, Order;
    var b := c.Bit(x);
    assert ChainIs(mem, v.base[i], LinkAt(c, v, i));
    LinkInRange(c, v, i);
    if Load(mem, l).shift == c.NewShift() {
      var k := NextOf(c, v.base, i + 1, b);
      assert k <= j;
      var n := |v.pre.At(b)|;
      OrderAt(v, b, k);
      OrderAt(v, b, j);
      FollowNew(c, v, mem, st, x, l, Load(mem, l), n + k, n + j);
    } else {
      AfterMore(c, v.base, i, i + 1, b);
      FollowOld(c, v, mem, st, x, l, Load(mem, l), i + 1, j);
    }
  }

  lemma EveryWalker(c: Split, v: View, mem: seq<Slot>, st: seq<State>, x: nat, l: Look)
    requires ViewOk(c, v) && Rendered(c, v, mem) && LookOk(c, v, x, l) && Seen(c, st, x)
    requires v.published ==> !Exposed(c, v.base, x, st)
    ensures Reaches(c, v, mem, st, x, l)
  {
    hide Exposed;
    if l.shift == c.oldShift {
      OldWalker(c, v, mem, st, x, l);
    } else if l.at.At? && c.Bit(l.at.slot) != c.Bit(x) {
      StrayWalker(c, v, mem, st, x, l);
    } else {
      NewWalker(c, v, mem, st, x, l);
    }
  }

  // ---------------------------------------------------------------------------------------
  // Whole runs
  // ---------------------------------------------------------------------------------------

  /** A lookup starts at the home that some published length selects; the length is published only
      after both heads are. */
  ghost predicate Begins(c: Split, v: View, key: HashedKey, l: Look) {
    && l.at == Head && l.held == Head
    && (l.shift == c.oldShift || (l.shift == c.NewShift() && v.published))
    && l.home == key.lo % Pow2(l.shift)
  }

  /** The states of all slots at each moment of a history. */
  ghost predicate StatesOf(c: Split, trace: seq<Moment>, states: seq<seq<State>>) {
    |states| == |trace| && forall t | 0 <= t < |states| :: |states[t]| == |c.keys|
  }

  /** `looks` are the successive states of one lookup; the k-th loads a link at moment times[k] and tries
      to reference the entry it leads to at moment marks[k]. */
  ghost predicate Runs(c: Split, trace: seq<Moment>, states: seq<seq<State>>, key: HashedKey, looks: seq<Look>,
      times: seq<nat>, marks: seq<nat>) {
    && 0 < |looks| == |times| == |marks| && StatesOf(c, trace, states)
    && (forall k | 0 <= k < |times| :: times[k] <= marks[k] < |trace|)
    && (forall k | 0 < k < |times| :: marks[k - 1] <= times[k])
    && Begins(c, trace[times[0]].view, key, looks[0])
    && forall k | 0 < k < |looks| ::
         Continues(trace[times[k - 1]].mem, states[marks[k - 1]], key, looks[k - 1], looks[k])
  }

  ghost predicate Continues(mem: seq<Slot>, st: seq<State>, key: HashedKey, l: Look, l': Look) {
    Becomes(mem, st, key, l, Continue(l'))
  }

  ghost predicate Becomes(mem: seq<Slot>, st: seq<State>, key: HashedKey, l: Look, out: Outcome) {
    && Placed(mem, l) && |st| == |mem| && (Load(mem, l).end || Load(mem, l).next < |mem|)
    && Follow(mem, st, key, l, Load(mem, l)) == out
  }

  /** The target stays visible from the start to the end of the lookup. */
  ghost predicate StaysVisible(states: seq<seq<State>>, x: nat, start: nat, stop: nat) {
    stop < |states| && forall t | start <= t <= stop :: x < |states[t]| && states[t][x].Visible?
  }

  lemma {:induction false} LaterStillOk(c: Split, trace: seq<Moment>, x: nat, l: Look, s: nat, t: nat)
    requires TraceOk(c, trace) && s <= t < |trace| && LookOk(c, trace[s].view, x, l)
    ensures LookOk(c, trace[t].view, x, l)
    decreases t - s
  {
    hide ViewOk, Rendered, Step, OneStore, LookOk;
    if s < t {
      LaterStillOk(c, trace, x, l, s, t - 1);
      StepKeepsLook(c, trace[t - 1].view, trace[t].view, x, l);
    }
  }

  /** At none of its loads does the lookup meet the dangerous constellation. */
  ghost predicate NeverExposed(c: Split, trace: seq<Moment>, states: seq<seq<State>>, x: nat, times: seq<nat>,
      marks: seq<nat>) {
    forall k | 0 <= k < |times| && k < |marks| && times[k] < |trace| && marks[k] < |states| ::
      SafeAt(c, trace[times[k]].view, x, states[marks[k]])
  }

  ghost predicate SafeAt(c: Split, v: View, x: nat, st: seq<State>) { v.published ==> !Exposed(c, v.base, x, st) }

  lemma MarksMono(c: Split, trace: seq<Moment>, states: seq<seq<State>>, key: HashedKey, looks: seq<Look>,
      times: seq<nat>, marks: seq<nat>, k: nat)
    requires Runs(c, trace, states, key, looks, times, marks) && k < |marks|
    ensures times[0] <= times[k] <= marks[k] <= marks[|marks| - 1]
  {
    hide Begins, Continues;
    MarksFrom(times, marks, k);
    MarksTo(times, marks, k);
  }

  lemma {:induction false} MarksFrom(times: seq<nat>, marks: seq<nat>, k: nat)
    requires k < |times| == |marks| && (forall k | 0 <= k < |times| :: times[k] <= marks[k])
    requires forall k | 0 < k < |times| :: marks[k - 1] <= times[k]
    ensures times[0] <= times[k]
  {
    if k > 0 {
      MarksFrom(times, marks, k - 1);
    }
  }

  lemma {:induction false} MarksTo(times: seq<nat>, marks: seq<nat>, k: nat)
    requires k < |times| == |marks| && (forall k | 0 <= k < |times| :: times[k] <= marks[k])
    requires forall k | 0 < k < |times| :: marks[k - 1] <= times[k]
    ensures marks[k] <= marks[|marks| - 1]
    decreases |marks| - k
  {
    if k + 1 < |marks| {
      assert marks[k + 1 - 1] <= times[k + 1];
      MarksTo(times, marks, k + 1);
    }
  }

  lemma OneLook(c: Split, trace: seq<Moment>, states: seq<seq<State>>, x: nat, looks: seq<Look>, times: seq<nat>,
      marks: seq<nat>, k: nat)
    requires TraceOk(c, trace) && x < |c.keys| && Runs(c, trace, states, c.keys[x], looks, times, marks) && k < |looks|
    requires StaysVisible(states, x, times[0], marks[|marks| - 1]) && NeverExposed(c, trace, states, x, times, marks)
    requires LookOk(c, trace[times[k]].view, x, looks[k])
    ensures Reaches(c, trace[times[k]].view, trace[times[k]].mem, states[marks[k]], x, looks[k])
  {
    hide ViewOk, Rendered, LookOk, Exposed, Begins, Continues, Step, OneStore;
    MarksMono(c, trace, states, c.keys[x], looks, times, marks, k);
    var m := trace[times[k]];
    assert SafeAt(c, m.view, x, states[marks[k]]);
    EveryWalker(c, m.view, m.mem, states[marks[k]], x, looks[k]);
  }

  lemma {:induction false} RunKeepsLook(c: Split, trace: seq<Moment>, states: seq<seq<State>>, x: nat,
      looks: seq<Look>, times: seq<nat>, marks: seq<nat>, k: nat)
    requires TraceOk(c, trace) && x < |c.keys| && Runs(c, trace, states, c.keys[x], looks, times, marks) && k < |looks|
    requires x in Present(trace[times[0]].view) && c.Belongs(x)
    requires StaysVisible(states, x, times[0], marks[|marks| - 1]) && NeverExposed(c, trace, states, x, times, marks)
    ensures LookOk(c, trace[times[k]].view, x, looks[k])
  {
    hide NeverExposed, StaysVisible;
    if k == 0 {
      assert ViewOk(c, trace[times[0]].view);
      Homes(c, x);
    } else {
      RunKeepsLook(c, trace, states, x, looks, times, marks, k - 1);
      OneLook(c, trace, states, x, looks, times, marks, k - 1);
      assert Continues(trace[times[k - 1]].mem, states[marks[k - 1]], c.keys[x], looks[k - 1], looks[k]);
      LaterStillOk(c, trace, x, looks[k], times[k - 1], times[k]);
    }
  }

  /** Lookup never misses, but for one constellation: if a visible entry with the key is on the chain when
      the lookup starts and stays visible, then at whatever moments its loads happen, and whatever becomes
      of the states of the other entries, no iteration can end with "not found"; and what it finds has that
      key and is visible. */
  lemma LookupNeverMisses(c: Split, trace: seq<Moment>, states: seq<seq<State>>, x: nat, looks: seq<Look>,
      times: seq<nat>, marks: seq<nat>)
    requires TraceOk(c, trace) && x < |c.keys| && Runs(c, trace, states, c.keys[x], looks, times, marks)
    requires x in Present(trace[times[0]].view) && c.Belongs(x)
    requires StaysVisible(states, x, times[0], marks[|marks| - 1]) && NeverExposed(c, trace, states, x, times, marks)
    ensures var k := |looks| - 1;
      var l, mem, st := looks[k], trace[times[k]].mem, states[marks[k]];
      && Placed(mem, l) && |st| == |mem| == |c.keys| && (Load(mem, l).end || Load(mem, l).next < |mem|)
      && var out := Follow(mem, st, c.keys[x], l, Load(mem, l));
         && !out.NotFound?
         && (out.Found? ==> out.slot < |c.keys| && st[out.slot].Visible? && c.keys[out.slot] == c.keys[x])
  {
    hide NeverExposed, StaysVisible;
    var k := |looks| - 1;
    RunKeepsLook(c, trace, states, x, looks, times, marks, k);
    OneLook(c, trace, states, x, looks, times, marks, k);
  }
}
