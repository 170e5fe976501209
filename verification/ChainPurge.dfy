/** PurgeImplLocked: unlinking entries that are under (de)construction from one rewrite-locked chain,
    optionally clock-updating the others, while other threads push entries at the head and change the
    metadata of entries. Every atomic load, store or CAS is one step; others may act between any two. */
module ChainPurge {
  import opened Slots
  import opened ClockTurns

  // ---------------------------------------------------------------------------------------
  // A chain in memory

  /** The link to position `i` of a chain: the next entry, or the end marker pointing back home. */
  function LinkAt(chain: seq<nat>, i: nat, home: nat, shift: nat): Link {
    if i < |chain| then Make(chain[i], shift) else MakeEnd(home, shift)
  }

  function Lock(l: Link, locked: bool): Link { if l.end then l else l.(locked := locked) }

  ghost predicate Chained(mem: seq<Slot>, home: nat, shift: nat, chain: seq<nat>, locked: bool) {
    && home < |mem| && NoDup(chain)
    && mem[home].head == Lock(LinkAt(chain, 0, home, shift), locked)
    && forall i | 0 <= i < |chain| :: chain[i] < |mem| && mem[chain[i]].chain == LinkAt(chain, i + 1, home, shift)
  }

  lemma ChainedMeta(mem: seq<Slot>, home: nat, shift: nat, chain: seq<nat>, locked: bool, e: nat, m: Meta)
    requires Chained(mem, home, shift, chain, locked) && e < |mem|
    ensures Chained(WithMeta(mem, e, m), home, shift, chain, locked)
  {
  }

  /** Another thread links an entry at the head: a private store, then the CAS. */
  lemma ChainedPush(mem: seq<Slot>, home: nat, shift: nat, chain: seq<nat>, locked: bool, e: nat)
    requires Chained(mem, home, shift, chain, locked) && e < |mem| && e !in chain && (chain == [] ==> !locked)
    ensures Chained(WithHead(WithChain(mem, e, LinkAt(chain, 0, home, shift)), home, Lock(Make(e, shift), locked)),
                    home, shift, [e] + chain, locked)
  {
    var mid := WithChain(mem, e, LinkAt(chain, 0, home, shift));
    var now := WithHead(mid, home, Lock(Make(e, shift), locked));
    var c := [e] + chain;
    forall i | 0 <= i < |c| ensures c[i] < |now| && now[c[i]].chain == LinkAt(c, i + 1, home, shift) {
      if i > 0 {
        assert c[i] == chain[i - 1] && chain[i - 1] in chain;
      }
    }
  }

  /** The chain without its positions `i` up to `j`. */
  function Cut(c: seq<nat>, i: nat, j: nat): (d: seq<nat>)
    requires i <= j <= |c|
    ensures |d| == |c| - (j - i)
  {
    c[..i] + c[j..]
  }

  lemma CutNone(c: seq<nat>, i: nat)
    ensures i <= |c| ==> Cut(c, i, i) == c
  {
  }

  lemma CutAt(c: seq<nat>, i: nat, j: nat, k: nat)
    requires i <= j <= |c| && k < |c| - (j - i)
    ensures Cut(c, i, j)[k] == c[if k < i then k else k + (j - i)]
  {
  }

  lemma CutNoDup(c: seq<nat>, i: nat, j: nat)
    requires i <= j <= |c| && NoDup(c)
    ensures NoDup(Cut(c, i, j))
  {
    hide Cut;
    forall k, l | 0 <= k < l < |Cut(c, i, j)| ensures Cut(c, i, j)[k] != Cut(c, i, j)[l] {
      CutAt(c, i, j, k);
      CutAt(c, i, j, l);
    }
  }

  lemma CutLink(c: seq<nat>, i: nat, j: nat, k: nat, home: nat, shift: nat)
    requires i <= j <= |c| && k <= |c| - (j - i)
    ensures LinkAt(Cut(c, i, j), k, home, shift) == LinkAt(c, if k < i then k else k + (j - i), home, shift)
  {
    hide Cut;
    if k < |c| - (j - i) {
      CutAt(c, i, j, k);
    }
  }

  /** Unlinking positions `i` up to `j`: by a store to the entry before them, or else to the head. */
  lemma ChainedCut(mem: seq<Slot>, home: nat, shift: nat, c: seq<nat>, i: nat, j: nat, locked: bool)
    requires Chained(mem, home, shift, c, locked) && i <= j <= |c|
    ensures i > 0 ==>
        c[i - 1] < |mem| && Chained(WithChain(mem, c[i - 1], LinkAt(c, j, home, shift)), home, shift, Cut(c, i, j),
        locked)
    ensures i == 0 ==>
        Chained(WithHead(mem, home, Lock(LinkAt(c, j, home, shift), locked)), home, shift, Cut(c, i, j), locked)
  {
    hide Cut, NoDup, LinkAt;
    CutNoDup(c, i, j);
    CutLink(c, i, j, 0, home, shift);
    var d := Cut(c, i, j);
    var now := if i > 0 then WithChain(mem, c[i - 1], LinkAt(c, j, home, shift))
        else WithHead(mem, home, Lock(LinkAt(c, j, home, shift), locked));
    forall k | 0 <= k < |d| ensures d[k] < |now| && now[d[k]].chain == LinkAt(d, k + 1, home, shift) {
      CutAt(c, i, j, k);
      CutLink(c, i, j, k + 1, home, shift);
      if i > 0 {
        Different(c, i - 1, if k < i then k else k + (j - i));
      }
    }
  }

  lemma Different(c: seq<nat>, i: nat, j: nat)
    requires NoDup(c) && i < |c| && j < |c|
    ensures c[i] == c[j] <==> i == j
  {
  }

  // ---------------------------------------------------------------------------------------
  // What is kept, and in which order

  function Only(s: seq<nat>, t: set<nat>): seq<nat> {
    if s == [] then [] else (if s[0] in t then [s[0]] else []) + Only(s[1..], t)
  }

  function Elems(s: seq<nat>): set<nat> { set e | e in s }

  lemma {:induction false} OnlyAll(s: seq<nat>, t: set<nat>)
    requires forall e | e in s :: e in t
    ensures Only(s, t) == s
  {
    if s != [] {
      OnlyAll(s[1..], t);
    }
  }

  lemma {:induction false} OnlyNone(s: seq<nat>, t: set<nat>)
    requires forall e | e in s :: e !in t
    ensures Only(s, t) == []
  {
    if s != [] {
      OnlyNone(s[1..], t);
    }
  }

  lemma {:induction false} OnlyConcat(a: seq<nat>, b: seq<nat>, t: set<nat>)
    ensures Only(a + b, t) == Only(a, t) + Only(b, t)
  {
    if a == [] {
      assert a + b == b;
    } else {
      assert (a + b)[1..] == a[1..] + b;
      OnlyConcat(a[1..], b, t);
      var x := if a[0] in t then [a[0]] else [];
      assert x + (Only(a[1..], t) + Only(b, t)) == x + Only(a[1..], t) + Only(b, t);
    }
  }

  lemma {:induction false} OnlyTwice(s: seq<nat>, t: set<nat>, u: set<nat>)
    requires u <= t
    ensures Only(Only(s, t), u) == Only(s, u)
  {
    if s != [] {
      OnlyTwice(s[1..], t, u);
      OnlyConcat(if s[0] in t then [s[0]] else [], Only(s[1..], t), u);
    }
  }

  /** Taking a segment out leaves the remaining entries in order. */
  lemma OnlyCut(c: seq<nat>, i: nat, j: nat)
    requires i <= j <= |c| && NoDup(c)
    ensures Only(c, Elems(Cut(c, i, j))) == Cut(c, i, j) && Elems(Cut(c, i, j)) <= Elems(c)
  {
    hide Only, NoDup, Cut;
    var a, mid, b, d := c[..i], c[i..j], c[j..], Cut(c, i, j);
    var t := Elems(d);
    forall k | 0 <= k < |a| ensures a[k] in t {
      CutHas(c, i, j, k);
    }
    forall k | 0 <= k < |mid| ensures mid[k] !in t {
      CutMisses(c, i, j, i + k);
    }
    forall k | 0 <= k < |b| ensures b[k] in t {
      CutHas(c, i, j, j + k);
    }
    assert c == a + (mid + b);
    OnlyConcat(a, mid + b, t);
    OnlyConcat(mid, b, t);
    OnlyAll(a, t);
    OnlyNone(mid, t);
    OnlyAll(b, t);
    CutIs(c, i, j);
  }

  lemma CutIs(c: seq<nat>, i: nat, j: nat)
    requires i <= j <= |c|
    ensures Cut(c, i, j) == c[..i] + ([] + c[j..]) && Elems(Cut(c, i, j)) <= Elems(c)
  {
  }

  lemma CutMisses(c: seq<nat>, i: nat, j: nat, k: nat)
    requires i <= k < j <= |c| && NoDup(c)
    ensures c[k] !in Cut(c, i, j)
  {
    hide Cut, NoDup;
    var d := Cut(c, i, j);
    forall l | 0 <= l < |d| ensures d[l] != c[k] {
      CutAt(c, i, j, l);
      Different(c, k, if l < i then l else l + (j - i));
    }
  }

  lemma CutHas(c: seq<nat>, i: nat, j: nat, k: nat)
    requires i <= j <= |c| && k < |c| && (k < i || j <= k)
    ensures c[k] in Cut(c, i, j)
  {
    CutAt(c, i, j, if k < i then k else k - (j - i));
  }

  /** `chain` is what is left of `all`, in order; what is missing is under construction. */
  ghost predicate Account(mem: seq<Slot>, all: seq<nat>, chain: seq<nat>) {
    && NoDup(all) && chain == Only(all, Elems(chain))
    && forall e | e in all ::
        e < |mem| && !mem[e].meta.state.Empty? && (e !in chain ==> mem[e].meta.state.Construction?)
  }

  lemma AccountPush(mem: seq<Slot>, now: seq<Slot>, all: seq<nat>, chain: seq<nat>, e: nat)
    requires Account(mem, all, chain) && Evolved(mem, now) && e !in all && e < |now| && !now[e].meta.state.Empty?
    ensures Account(now, [e] + all, [e] + chain)
  {
    hide Only, NoDup;
    var t, a, c := Elems([e] + chain), [e] + all, [e] + chain;
    ChainElems(all, chain);
    assert t == Elems(chain) + {e};
    OnlyGrown(all, Elems(chain), e);
    OnlyPushed(all, t, e);
    NoDupPushed(all, e);
  }

  lemma OnlyPushed(all: seq<nat>, t: set<nat>, e: nat)
    requires e in t
    ensures Only([e] + all, t) == [e] + Only(all, t)
  {
    assert ([e] + all)[1..] == all;
  }

  lemma NoDupPushed(all: seq<nat>, e: nat)
    requires NoDup(all) && e !in all
    ensures NoDup([e] + all)
  {
  }

  lemma {:induction false} OnlyGrown(s: seq<nat>, t: set<nat>, e: nat)
    requires e !in s
    ensures Only(s, t + {e}) == Only(s, t)
  {
    if s != [] {
      OnlyGrown(s[1..], t, e);
    }
  }

  lemma {:induction false} OnlyWithin(s: seq<nat>, t: set<nat>)
    ensures forall e | e in Only(s, t) :: e in s
  {
    if s != [] {
      OnlyWithin(s[1..], t);
    }
  }

  lemma ChainElems(all: seq<nat>, chain: seq<nat>)
    requires chain == Only(all, Elems(chain))
    ensures forall e | e in chain :: e in all
  {
    OnlyWithin(all, Elems(chain));
  }

  lemma AccountCut(mem: seq<Slot>, now: seq<Slot>, all: seq<nat>, chain: seq<nat>, i: nat, j: nat)
    requires Account(mem, all, chain) && Evolved(mem, now) && NoDup(chain) && i <= j <= |chain|
    requires forall k | i <= k < j :: chain[k] < |mem| && mem[chain[k]].meta.state.Construction?
    ensures Account(now, all, Cut(chain, i, j))
  {
    hide Only, NoDup, Cut;
    var d := Cut(chain, i, j);
    OnlyCut(chain, i, j);
    OnlyTwice(all, Elems(chain), Elems(d));
    forall e | e in all && e !in d ensures now[e].meta.state.Construction? {
      if e in chain {
        var k :| 0 <= k < |chain| && chain[k] == e;
        if k < i || j <= k {
          CutHas(chain, i, j, k);
        }
      }
    }
  }

  lemma AccountSame(mem: seq<Slot>, now: seq<Slot>, all: seq<nat>, chain: seq<nat>)
    requires Account(mem, all, chain) && Evolved(mem, now)
    ensures Account(now, all, chain)
  {
  }

  /** Entries under construction stay so, and no entry is marked empty, while the chain is locked. */
  ghost predicate Evolved(mem: seq<Slot>, now: seq<Slot>) {
    && |now| == |mem|
    && forall e | 0 <= e < |mem| ::
         && (mem[e].meta.state.Construction? ==> now[e].meta.state.Construction?)
         && (now[e].meta.state.Empty? ==> mem[e].meta.state.Empty?)
         && now[e].key == mem[e].key && now[e].charge == mem[e].charge
  }

  lemma EvolvedTrans(a: seq<Slot>, b: seq<Slot>, c: seq<Slot>)
    requires Evolved(a, b) && Evolved(b, c)
    ensures Evolved(a, c)
  {
  }

  // ---------------------------------------------------------------------------------------
  // What other threads do meanwhile

  datatype Interference =
    | Push(e: nat)                  // link an inserted entry at the head
    | Claim(e: nat, hit: bool)      // take an unreferenced entry for freeing
    | Touch(e: nat, meta: Meta)     // reference, release, clock-update or hide a shareable entry

  ghost predicate ScriptOk(mem: seq<Slot>, all: seq<nat>, script: seq<Interference>) {
    && (forall i | 0 <= i < |script| :: script[i].e < |mem|)
    && (forall i | 0 <= i < |script| && script[i].Push? :: script[i].e !in all && !mem[script[i].e].meta.state.Empty?)
    && (forall i, j | 0 <= i < j < |script| && script[i].Push? && script[j].Push? :: script[i].e != script[j].e)
  }

  lemma ScriptSame(mem: seq<Slot>, now: seq<Slot>, all: seq<nat>, script: seq<Interference>)
    requires ScriptOk(mem, all, script) && Evolved(mem, now)
    ensures ScriptOk(now, all, script)
  {
  }

  lemma ScriptNext(mem: seq<Slot>, now: seq<Slot>, all: seq<nat>, script: seq<Interference>)
    requires ScriptOk(mem, all, script) && Evolved(mem, now) && script != []
    ensures ScriptOk(now, if script[0].Push? then [script[0].e] + all else all, script[1..])
  {
    forall i | 0 <= i < |script[1..]| ensures script[1..][i] == script[i + 1] {
    }
  }

  /** No head but the home's, and no link but those of entries that were on the chain, has changed. */
  ghost predicate Local(mem0: seq<Slot>, mem: seq<Slot>, home: nat, all: seq<nat>) {
    && |mem| == |mem0|
    && forall x | 0 <= x < |mem| ::
        (x != home ==> mem[x].head == mem0[x].head) && (x !in all ==> mem[x].chain == mem0[x].chain)
  }

  /** An entry that has had one clock update and stays. */
  predicate Aged(was: Meta, now: Meta) { !Expired(was) && now == Tick(was) }

  /** Without other threads, entries of the chain have had at most one clock update, expired ones are taken
      for eviction, and nothing else changes. */
  ghost predicate Alone(mem0: seq<Slot>, mem: seq<Slot>, all: seq<nat>, ours: set<nat>) {
    && |mem| == |mem0| && (forall x | x in ours :: x < |mem|)
    && forall x | 0 <= x < |mem| :: AloneAt(mem0[x], mem[x], x in all, x in ours)
  }

  ghost predicate AloneAt(was: Slot, now: Slot, chained: bool, ours: bool) {
    && now.key == was.key && now.charge == was.charge
    && if ours then chained && Expired(was.meta) && now.meta.state.Construction?
       else now.meta == was.meta || (chained && Aged(was.meta, now.meta))
  }

  lemma Updates(m: Meta)
    ensures !m.Shareable() || m.Refcount() != 0 ==> !Expired(m) && Tick(m) == m
    ensures m.Shareable() && m.Refcount() == 0 ==> if m.state.Visible? && m.acquire > 0 then
      var n := if m.acquire - 1 < MAX_COUNTDOWN - 1 then m.acquire - 1 else MAX_COUNTDOWN - 1;
      !Expired(m) && Tick(m) == m.(acquire := n, release := n)
    else Expired(m)
  {
  }

  lemma OnAll(mem: seq<Slot>, all: seq<nat>, chain: seq<nat>, i: nat)
    requires Account(mem, all, chain) && i < |chain|
    ensures chain[i] in all
  {
    ChainElems(all, chain);
  }

  lemma LocalStep(mem0: seq<Slot>, mem: seq<Slot>, now: seq<Slot>, home: nat, all: seq<nat>, all': seq<nat>, e: nat)
    requires Local(mem0, mem, home, all) && |now| == |mem| && (forall x | x in all :: x in all')
        && (e in all' || e >= |mem|)
    requires forall x | 0 <= x < |mem| ::
        (x != home ==> now[x].head == mem[x].head) && (x != e ==> now[x].chain == mem[x].chain)
    ensures Local(mem0, now, home, all')
  {
  }

  lemma AloneLinks(mem0: seq<Slot>, mem: seq<Slot>, now: seq<Slot>, all: seq<nat>, ours: set<nat>)
    requires Alone(mem0, mem, all, ours) && |now| == |mem|
    requires forall x | 0 <= x < |mem| ::
        now[x].meta == mem[x].meta && now[x].key == mem[x].key && now[x].charge == mem[x].charge
    ensures Alone(mem0, now, all, ours)
  {
  }

  lemma AloneMeta(mem0: seq<Slot>, mem: seq<Slot>, all: seq<nat>, ours: set<nat>, e: nat, m: Meta)
    requires Alone(mem0, mem, all, ours) && e < |mem| && e in all && Unseen(mem0, mem, e)
    requires mem[e].meta.Shareable() && (Aged(mem[e].meta, m) || (Expired(mem[e].meta) && m.state.Construction?))
    ensures Alone(mem0, WithMeta(mem, e, m), all, if m.Shareable() then ours else ours + {e})
  {
    hide AloneAt, Aged, Expired, Tick;
    assert AloneAt(mem0[e], mem[e], true, e in ours);
    var now, ours' := WithMeta(mem, e, m), if m.Shareable() then ours else ours + {e};
    AloneAtMeta(mem0[e], mem[e], e in ours, m);
    forall x | 0 <= x < |now| ensures AloneAt(mem0[x], now[x], x in all, x in ours') {
      assert AloneAt(mem0[x], mem[x], x in all, x in ours);
    }
  }

  lemma AloneAtMeta(was: Slot, mid: Slot, ours: bool, m: Meta)
    requires AloneAt(was, mid, true, ours) && mid.meta == was.meta && mid.meta.Shareable()
    requires Aged(mid.meta, m) || (Expired(mid.meta) && m.state.Construction?)
    ensures AloneAt(was, mid.(meta := m), true, !m.Shareable()) && !ours
  {
  }

  class Purger {
    const arr: array<Slot>
    const home: nat
    const shift: nat
    var script: seq<Interference>
    ghost var chain: seq<nat>       // the chain as linked now
    ghost var all: seq<nat>         // everything that was on it since the lock was taken, newest first
    ghost var locked: bool
    ghost var ours: set<nat>        // entries that this thread took for eviction
    ghost const initial: seq<Slot>
    ghost const first: seq<nat>
    ghost const quiet: bool         // no other thread does anything

    ghost predicate Valid()
      reads this, arr
    {
      && Chained(arr[..], home, shift, chain, locked) && Account(arr[..], all, chain) && ScriptOk(arr[..], all, script)
      && (chain == [] ==> !locked)
      && Local(initial, arr[..], home, all) && (quiet ==>
          script == [] && all == first && Alone(initial, arr[..], all, ours))
    }

    constructor (arr: array<Slot>, home: nat, shift: nat, script: seq<Interference>, ghost chain: seq<nat>)
      requires Chained(arr[..], home, shift, chain, false) && ScriptOk(arr[..], chain, script)
      requires forall i | 0 <= i < |chain| :: !arr[chain[i]].meta.state.Empty?
      ensures Valid() && this.arr == arr && this.home == home && this.shift == shift && this.script == script
      ensures this.chain == all == first == chain && !locked && initial == arr[..] && quiet == (script == [])
          && ours == {}
    {
      this.arr, this.home, this.shift, this.script := arr, home, shift, script;
      this.chain, all, first, locked := chain, chain, chain, false;
      initial, quiet, ours := arr[..], script == [], {};
      new;
      OnlyAll(chain, Elems(chain));
    }

    /** One step of another thread. */
    method Act() returns (ghost pre: seq<nat>)
      requires Valid() && script != []
      modifies arr, `script, `chain, `all, `ours
      ensures Valid() && script == old(script)[1..] && Evolved(old(arr[..]), arr[..])
      ensures chain == pre + old(chain) && all == pre + old(all) && |pre| <= 1
    {
      hide Chained, Account, ScriptOk, Evolved, Only, NoDup, Local, Alone;
      var a := script[0];
      ghost var mem := arr[..];
      FirstOk(mem, all, chain, script, home, shift, locked);
      pre := [];
      match a {
        case Push(e) =>
          var next := arr[home].head;
          ghost var now := WithHead(WithChain(mem, e, LinkAt(chain, 0, home, shift)), home,
              Lock(Make(e, shift), locked));
          ChainedPush(mem, home, shift, chain, locked, e);
          PushEvolves(mem, home, e, LinkAt(chain, 0, home, shift), Lock(Make(e, shift), locked));
          LocalStep(initial, mem, now, home, all, [e] + all, e);
          AccountPush(mem, now, all, chain, e);
          ScriptNext(mem, now, all, script);
          // the lock is kept on the head and not copied to the entry
          arr[e] := arr[e].(chain := if next.LockedNotEnd() then next.(locked := false) else next);
          arr[home] := arr[home].(head := Make(e, shift).(locked := next.LockedNotEnd()));
          assert arr[..] == now;
          pre := [e];
          chain, all := pre + chain, pre + all;
        case Claim(e, hit) =>
          if arr[e].meta.Shareable() && arr[e].meta.Refcount() == 0 {
            SetMeta(e, Meta(0, 0, hit, Construction));
          } else {
            EvolvedRefl(mem);
          }
          ScriptNext(mem, arr[..], all, script);
        case Touch(e, m) =>
          if arr[e].meta.Shareable() && m.Shareable() {
            SetMeta(e, m);
          } else {
            EvolvedRefl(mem);
          }
          ScriptNext(mem, arr[..], all, script);
      }
      script := script[1..];
    }

    /** A successful CAS of a metadata word from a shareable state. */
    method SetMeta(e: nat, m: Meta)
      requires Valid() && e < arr.Length && arr[e].meta.Shareable() && !m.state.Empty?
      requires quiet ==> e in all && Unseen(initial, arr[..], e)
      requires quiet ==> Aged(arr[e].meta, m) || (Expired(arr[e].meta) && m.state.Construction?)
      modifies arr, `ours
      ensures Valid() && arr[..] == WithMeta(old(arr[..]), e, m) && Evolved(old(arr[..]), arr[..])
      ensures ours == if m.Shareable() then old(ours) else old(ours) + {e}
    {
      hide Chained, Account, ScriptOk, Only, NoDup, Local, Alone;
      ghost var mem, now := arr[..], WithMeta(arr[..], e, m);
      LocalStep(initial, mem, now, home, all, all, |mem|);
      if quiet {
        AloneMeta(initial, mem, all, ours, e, m);
      }
      ChainedMeta(mem, home, shift, chain, locked, e, m);
      AccountSame(mem, now, all, chain);
      ScriptSame(mem, now, all, script);
      arr[e] := arr[e].(meta := m);
      assert arr[..] == now;
      ours := if m.Shareable() then ours else ours + {e};
    }

    /** Any number of steps of other threads. */
    method Interfere() returns (ghost pre: seq<nat>)
      requires Valid()
      modifies arr, `script, `chain, `all, `ours
      ensures Valid() && Evolved(old(arr[..]), arr[..]) && (quiet ==> ours == old(ours) && arr[..] == old(arr[..]))
      ensures chain == pre + old(chain) && all == pre + old(all) && |pre| + |script| <= |old(script)|
    {
      hide Valid, Evolved;
      Quiet();
      EvolvedRefl(arr[..]);
      pre := [];
      var n :| 0 <= n <= |script|;
      while n > 0
        invariant Valid() && Evolved(old(arr[..]), arr[..]) && n <= |script|
            && (quiet ==> n == 0 && ours == old(ours) && arr[..] == old(arr[..]))
        invariant chain == pre + old(chain) && all == pre + old(all) && |pre| + |script| <= |old(script)|
      {
        ghost var mid := arr[..];
        ghost var one := Act();
        EvolvedTrans(old(arr[..]), mid, arr[..]);
        pre := one + pre;
        n := n - 1;
      }
    }

    lemma Quiet()
      requires Valid()
      ensures quiet ==> script == []
    {
    }

    /** ClockUpdate on an entry of the chain; a CAS fails if the word changed since it was loaded. */
    method ClockUpdate(h: nat, data: EvictionData) returns (evicting: bool, purgeable: bool, data': EvictionData,
        ghost pre: seq<nat>)
      requires Valid() && h in chain && (quiet ==> Unseen(initial, arr[..], h))
      modifies arr, `script, `chain, `all, `ours
      ensures Valid() && Evolved(old(arr[..]), arr[..]) && h < arr.Length
          && (quiet ==> ours == old(ours) + if evicting then {h} else {})
      ensures chain == pre + old(chain) && all == pre + old(all) && |pre| + |script| <= |old(script)|
      ensures quiet ==>
          OnlyAt(old(arr[..]), arr[..], h) && (!evicting && !purgeable ==> Visited(old(arr[..]), arr[..], h))
      ensures evicting || purgeable ==> arr[h].meta.state.Construction?
      ensures evicting ==> !old(arr[h]).meta.state.Construction? && !purgeable
      ensures !evicting && !purgeable ==> !old(arr[h]).meta.state.Construction?
      ensures data'.freedCount == data.freedCount + (if evicting then 1 else 0)
      ensures data'.freedCharge == data.freedCharge + (if evicting then arr[h].charge else 0)
      ensures data'.seenPinned == data.seenPinned + (if Pinned(old(arr[h]).meta) then 1 else 0)
    {
      hide Chained, Account, ScriptOk, Only, NoDup, Local, Alone, Tick, Expired;
      InRange(arr[..], all, chain, h);
      evicting, purgeable, data', pre := false, false, data, [];
      EvolvedRefl(arr[..]);
      var m := arr[h].meta;
      Updates(m);
      if !m.Shareable() {
        purgeable := true;
      } else if m.acquire != m.release {
        data' := data.(seenPinned := data.seenPinned + 1);
      } else {
        pre := Interfere();
        ghost var mid := arr[..];
        if m.state.Visible? && m.acquire > 0 {
          var n := if m.acquire - 1 < MAX_COUNTDOWN - 1 then m.acquire - 1 else MAX_COUNTDOWN - 1;
          if arr[h].meta == m {
            SetMeta(h, m.(acquire := n, release := n));
            EvolvedTrans(old(arr[..]), mid, arr[..]);
          }
        } else if arr[h].meta == m {
          SetMeta(h, Meta(0, 0, m.hit, Construction));
          EvolvedTrans(old(arr[..]), mid, arr[..]);
          evicting := true;
          data' := data.(freedCharge := data.freedCharge + arr[h].charge, freedCount := data.freedCount + 1);
        }
      }
    }

    /** Links a kept entry to the rest of the chain, past entries to be purged. */
    method Skip(prev: nat, next: Link, ghost dead: set<nat>, ghost w: Walk)
      requires Valid() && locked && Walking(arr[..], home, shift, all, chain, dead, w)
      requires w.f < w.k && prev == chain[w.k - 1] && next == LinkAt(chain, w.r, home, shift)
      modifies arr, `chain
      ensures Valid() && Evolved(old(arr[..]), arr[..]) && SameEntries(old(arr[..]), arr[..])
          && chain == Cut(old(chain), w.k, w.r)
      ensures Walking(arr[..], home, shift, all, chain, dead, w.(r := w.k))
    {
      hide Chained, Account, ScriptOk, Only, NoDup, Walking, Evolved, Cut, Local, Alone;
      ghost var mem := arr[..];
      WalkRange(mem, home, shift, all, chain, dead, w);
      ghost var now := WithChain(mem, prev, next);
      ChainedCut(mem, home, shift, chain, w.k, w.r, locked);
      LinkEvolves(mem, prev, next);
      ChainedOnce(mem, home, shift, chain, locked);
      AccountCut(mem, now, all, chain, w.k, w.r);
      ScriptSame(mem, now, all, script);
      WalkCut(mem, now, home, shift, all, chain, dead, w);
      OnAll(mem, all, chain, w.k - 1);
      LocalStep(initial, mem, now, home, all, all, prev);
      if quiet {
        AloneLinks(initial, mem, now, all, ours);
      }
      arr[prev] := arr[prev].(chain := next);
      assert arr[..] == now;
      chain := Cut(chain, w.k, w.r);
    }

    /** CasUpdate of the head to the rest of the chain; fails if entries were pushed since it was read. */
    method CasHead(next: Link, saved: Link, ghost dead: set<nat>, ghost w: Walk) returns (ok: bool, saved': Link)
      requires Valid() && locked && Walking(arr[..], home, shift, all, chain, dead, w) && saved == w.saved
      requires w.f == w.k < w.r && next == LinkAt(chain, w.r, home, shift)
      modifies arr, `chain, `locked
      ensures Valid() && Evolved(old(arr[..]), arr[..]) && SameEntries(old(arr[..]), arr[..])
      ensures ok ==> w.f == 0 && chain == Cut(old(chain), 0, w.r)
      ensures ok ==> locked == (chain != []) && (saved'.end <==> chain == [])
      ensures ok && chain != [] ==> Walking(arr[..], home, shift, all, chain, dead, w.(r := 0, saved := saved'))
      ensures !ok ==> w.f > 0 && chain == old(chain) && locked && saved' == Lock(LinkAt(chain, 0, home, shift), true)
      ensures !ok ==> Walking(arr[..], home, shift, all, chain, dead, w.(f := 0, k := 0, r := 0, saved := saved'))
    {
      hide Chained, Account, ScriptOk, Only, NoDup, Walking, Evolved, Cut, Local, Alone;
      ghost var mem := arr[..];
      HeadMoved(mem, home, shift, all, chain, locked, dead, w);
      ok := arr[home].head == saved;
      if ok {
        saved' := Lock(next, true);
        ghost var now := WithHead(mem, home, saved');
        WalkRange(mem, home, shift, all, chain, dead, w);
        ChainedCut(mem, home, shift, chain, 0, w.r, locked);
        HeadEvolves(mem, home, saved');
        ChainedOnce(mem, home, shift, chain, locked);
        AccountCut(mem, now, all, chain, 0, w.r);
        ScriptSame(mem, now, all, script);
        WalkDrop(mem, now, home, shift, all, chain, dead, w, saved');
        LocalStep(initial, mem, now, home, all, all, |mem|);
        if quiet {
          AloneLinks(initial, mem, now, all, ours);
        }
        arr[home] := arr[home].(head := saved');
        assert arr[..] == now;
        chain := Cut(chain, 0, w.r);
        if chain == [] {
          ChainedEmpty(now, home, shift);
          locked := false;
        }
      } else {
        saved' := arr[home].head;
        EvolvedRefl(mem);
        WalkAgain(mem, home, shift, all, chain, dead, w, saved');
      }
    }

    /** Interference seen from the walk: everything moves back by the number of entries pushed. */
    method Others(ghost dead: set<nat>, ghost w: Walk) returns (ghost n: nat)
      requires Valid() && locked && Walking(arr[..], home, shift, all, chain, dead, w)
      modifies arr, `script, `chain, `all, `ours
      ensures Valid() && Evolved(old(arr[..]), arr[..]) && n + |script| <= |old(script)|
          && (quiet ==> ours == old(ours) && arr[..] == old(arr[..]))
      ensures Walking(arr[..], home, shift, all, chain, dead, Shifted(w, n))
          && Extends(old(all), old(chain), all, chain, n)
    {
      hide Chained, ScriptOk, Only, Walking, Evolved, LinkAt, Extends;
      ghost var mem, all0, chain0 := arr[..], all, chain;
      ghost var pre := Interfere();
      n := |pre|;
      PushedInRange(arr[..], pre, all0, chain);
      WalkShift(mem, arr[..], home, shift, all0, chain0, dead, w, pre);
      ExtendsBy(all0, chain0, pre);
    }

    /** Looks at an entry, clock-updating it if asked to: is it to be purged? */
    method Examine(h: nat, clockUpdate: bool, data: EvictionData, ghost dead: set<nat>, ghost w: Walk)
      returns (purgeable: bool, evicting: bool, data': EvictionData, ghost n: nat)
      requires Valid() && locked && Walking(arr[..], home, shift, all, chain, dead, w) && w.r < |chain|
          && h == chain[w.r] && (quiet && clockUpdate ==> Unseen(initial, arr[..], h))
      modifies arr, `script, `chain, `all, `ours
      ensures Valid() && Evolved(old(arr[..]), arr[..]) && n + |script| <= |old(script)|
          && (quiet ==> ours == old(ours) + if evicting then {h} else {})
      ensures Walking(arr[..], home, shift, all, chain, dead, Shifted(w, n))
          && Extends(old(all), old(chain), all, chain, n)
      ensures h < arr.Length && (purgeable ==> arr[h].meta.state.Construction?)
          && (evicting ==> purgeable && h !in w.evicted)
      ensures quiet ==>
          OnlyAt(old(arr[..]), arr[..], h) && (clockUpdate && !purgeable ==> Visited(old(arr[..]), arr[..], h))
      ensures !purgeable ==> h !in dead && h !in w.evicted
      ensures data'.freedCount == data.freedCount + (if evicting then 1 else 0)
          && (!clockUpdate ==> !evicting && arr[..] == old(arr[..]))
      ensures data'.freedCharge == data.freedCharge + (if evicting then arr[h].charge else 0)
      ensures data'.seenPinned == data.seenPinned + (if clockUpdate && Pinned(old(arr[h]).meta) then 1 else 0)
    {
      hide Chained, ScriptOk, Only, Walking, Evolved, LinkAt, Extends, NoDup, OnlyAt, Visited, Local, Alone, Pinned;
      ghost var mem, all0, chain0 := arr[..], all, chain;
      WalkRange(mem, home, shift, all, chain, dead, w);
      NotDead(mem, home, shift, all, chain, dead, w, h);
      InRange(mem, all, chain, h);
      if clockUpdate {
        ghost var pre;
        evicting, purgeable, data', pre := ClockUpdate(h, data);
        n := |pre|;
        PushedInRange(arr[..], pre, all0, chain);
        WalkShift(mem, arr[..], home, shift, all0, chain0, dead, w, pre);
        ExtendsBy(all0, chain0, pre);
        purgeable := purgeable || evicting;
      } else {
        purgeable, evicting, data' := !arr[h].meta.Shareable(), false, data;
        n := 0;
        EvolvedRefl(mem);
        OnlySame(mem, h);
        NothingPushed(all0, chain0, w);
      }
    }

    /** Reads the chain pointer of the entry last looked at. */
    method ReadLink(e: nat, ghost dead: set<nat>, ghost w: Walk) returns (next: Link, ghost n: nat)
      requires Valid() && locked && Walking(arr[..], home, shift, all, chain, dead, w) && 0 < w.r && e == chain[w.r - 1]
      modifies arr, `script, `chain, `all, `ours
      ensures Valid() && Evolved(old(arr[..]), arr[..]) && n + |script| <= |old(script)|
          && (quiet ==> ours == old(ours) && arr[..] == old(arr[..]))
      ensures Walking(arr[..], home, shift, all, chain, dead, Shifted(w, n))
          && Extends(old(all), old(chain), all, chain, n)
      ensures next == LinkAt(chain, w.r + n, home, shift)
    {
      hide Account, ScriptOk, Only, Walking, Evolved, LinkAt, NoDup;
      WalkRange(arr[..], home, shift, all, chain, dead, w);
      ghost var chain0 := chain;
      n := Others(dead, w);
      WalkRange(arr[..], home, shift, all, chain, dead, Shifted(w, n));
      assert chain[n..][w.r - 1] == chain[n + w.r - 1];
      next := arr[e].chain;
    }

    /** At an entry that stays, or at the end: unlinks the entries pending before it, if any. */
    method Stitch(h: int, prev: int, pending: bool, next: Link, saved: Link, ghost dead: set<nat>, ghost w: Walk)
      returns (restart: bool, saved': Link, ghost w': Walk)
      requires Valid() && locked && Walking(arr[..], home, shift, all, chain, dead, w) && saved == w.saved
      requires Tracks(chain, home, shift, w, h, prev, pending, next) && (h >= 0 ==> h !in dead && h !in w.evicted)
      modifies arr, `chain, `locked
      ensures Valid() && Evolved(old(arr[..]), arr[..]) && w'.evicted == w.evicted && saved' == w'.saved
          && NoDup(w.evicted)
      ensures SameEntries(old(arr[..]), arr[..])
      ensures restart ==>
          locked && w'.f == w'.k == w'.r == 0 < w.f && Walking(arr[..], home, shift, all, chain, dead, w')
      ensures restart ==> Tracks(chain, home, shift, w', saved'.next, -1, false, saved') && prev == -1
      ensures !restart && h < 0 ==>
          Clear(chain, dead, w'.evicted) && (saved'.end <==> !locked) && (locked <==> chain != [])
      ensures !restart && h >= 0 ==>
          locked && Walking(arr[..], home, shift, all, chain, dead, w') && Resting(chain, w', h, h, false)
      ensures !restart && h >= 0 ==> w'.f == w.f && |chain| - w'.r < old(|chain|) - w.r && w'.k == w'.r == w.k + 1
      ensures w.k <= w.r <= |old(chain)| && (!restart ==> chain == Cut(old(chain), w.k, w.r))
    {
      hide Chained, Account, ScriptOk, Only, Walking, Evolved, LinkAt, NoDup, Cut, Valid, Lock, SameEntries;
      WalkRange(arr[..], home, shift, all, chain, dead, w);
      restart, saved', w' := false, saved, w;
      SameTrans(arr[..], arr[..], arr[..]);
      EvolvedRefl(arr[..]);
      CutNone(chain, w.k);
      if pending {
        if prev >= 0 {
          TracksCut(chain, home, shift, w, h, prev, next);
          Skip(prev, next, dead, w);
          w' := w.(r := w.k);
        } else {
          TracksCut(chain, home, shift, w, h, prev, next);
          var ok;
          ok, saved' := CasHead(next, saved, dead, w);
          if !ok {
            HeadRead();
            w' := w.(f := 0, k := 0, r := 0, saved := saved');
            TracksStart(chain, home, shift, saved', w');
            return true, saved', w';
          }
          w' := w.(r := 0, saved := saved');
          if h < 0 {
            return false, saved', w';
          }
        }
      }
      if h >= 0 {
        WalkKeep(arr[..], home, shift, all, chain, dead, w', h);
        w' := w'.(k := w'.k + 1, r := w'.r + 1);
      } else {
        WalkClear(arr[..], home, shift, all, chain, dead, w');
      }
    }

    /** One look at the entry reached, if any, with other threads acting before and during it. */
    method Look(h: int, clockUpdate: bool, data: EvictionData, ghost dead: set<nat>, ghost w: Walk, ghost on: bool,
        ghost mem0: seq<Slot>, ghost all0: seq<nat>, ghost prev: int, ghost pending: bool, ghost next: Link)
      returns (purgeable: bool, evicting: bool, data': EvictionData, ghost n: nat)
      requires Valid() && locked && Walking(arr[..], home, shift, all, chain, dead, w)
          && Tracks(chain, home, shift, w, h, prev, pending, next)
      requires on == (quiet && clockUpdate) && Since(mem0, all0, arr[..], all)
          && Progress(on, mem0, arr[..], chain, w.k, w.r) && (on ==> SameEntries(initial, mem0))
      modifies arr, `script, `chain, `all, `ours
      ensures Valid() && Since(mem0, all0, arr[..], all) && n + |script| <= |old(script)|
          && |chain| == |old(chain)| + n && (quiet ==> n == 0)
      ensures Walking(arr[..], home, shift, all, chain, dead, Shifted(w, n))
          && Tracks(chain, home, shift, Shifted(w, n), h, prev, pending, next)
      ensures Progress(on, mem0, arr[..], chain, w.k + n, if h >= 0 then w.r + n + 1 else w.r + n)
      ensures h < arr.Length && (purgeable ==> h >= 0 && arr[h].meta.state.Construction?)
          && (evicting ==> purgeable && h !in w.evicted)
      ensures h >= 0 && !purgeable ==> h !in dead && h !in w.evicted && (on ==> Visited(mem0, arr[..], h))
      ensures data'.freedCount == data.freedCount + (if evicting then 1 else 0) && (!clockUpdate ==> !evicting)
      ensures data'.freedCharge == data.freedCharge + (if evicting then arr[h].charge else 0)
      ensures on ==> data'.seenPinned == data.seenPinned + PinnedOn(mem0, if h >= 0 then [h] else [])
      ensures quiet ==> ours == old(ours) + (if evicting then {h} else {}) && (!clockUpdate ==> arr[..] == old(arr[..]))
      ensures quiet ==> chain == old(chain)
    {
      hide Chained, Account, ScriptOk, Only, Walking, Evolved, LinkAt, NoDup, Extends, Tracks, Valid, Since, Progress,
          Visited, OnlyAt, SameEntries, Unseen;
      purgeable, evicting, data' := false, false, data;
      ghost var m1, a1, c1 := arr[..], all, chain;
      Quiet();
      n := Others(dead, w);
      ExtendsNone(a1, c1, all, chain, n);
      ProgressMoved(on, mem0, m1, arr[..], a1, c1, all, chain, w, n);
      Moved(mem0, all0, m1, a1, c1, arr[..], all, chain, home, shift, w, h, prev, pending, next, n);
      HereIs(chain, home, shift, Shifted(w, n), h, prev, pending, next);
      if h >= 0 {
        m1, a1, c1 := arr[..], all, chain;
        HeadRead();
        Quiet();
        UnseenHere(on, initial, mem0, arr[..], chain, Shifted(w, n), h);
        ghost var n2;
        purgeable, evicting, data', n2 := Examine(h, clockUpdate, data, dead, Shifted(w, n));
        ExtendsNone(a1, c1, all, chain, n2);
        ProgressExamined(on, mem0, m1, arr[..], a1, c1, all, chain, Shifted(w, n), n2, h, purgeable);
        Moved(mem0, all0, m1, a1, c1, arr[..], all, chain, home, shift, Shifted(w, n), h, prev, pending, next, n2);
        n := n + n2;
      }
    }

    /** Reads on from the entry looked at. */
    method Follow(h: nat, ghost dead: set<nat>, ghost w: Walk, ghost on: bool, ghost mem0: seq<Slot>,
        ghost all0: seq<nat>, ghost prev: int, ghost pending: bool)
      returns (next: Link, ghost n: nat)
      requires Valid() && locked && Walking(arr[..], home, shift, all, chain, dead, w)
          && Resting(chain, w, h, prev, pending) && (on ==> quiet)
      requires Since(mem0, all0, arr[..], all) && Progress(on, mem0, arr[..], chain, w.k, w.r)
      modifies arr, `script, `chain, `all, `ours
      ensures Valid() && Since(mem0, all0, arr[..], all) && n + |script| <= |old(script)|
          && |chain| == |old(chain)| + n && w.r <= |old(chain)|
      ensures Walking(arr[..], home, shift, all, chain, dead, Shifted(w, n))
          && Progress(on, mem0, arr[..], chain, w.k + n, w.r + n)
      ensures Tracks(chain, home, shift, Shifted(w, n), if next.end then -1 else next.next, prev, pending, next)
      ensures quiet ==> n == 0 && ours == old(ours) && arr[..] == old(arr[..]) && chain == old(chain)
    {
      hide Chained, Account, ScriptOk, Only, Walking, Evolved, LinkAt, NoDup, Extends, Tracks, Valid, Since, Progress,
          Resting;
      ghost var m1, a1, c1 := arr[..], all, chain;
      RestsAt(chain, w, h, prev, pending);
      Quiet();
      next, n := ReadLink(h, dead, w);
      ExtendsNone(a1, c1, all, chain, n);
      ProgressMoved(on, mem0, m1, arr[..], a1, c1, all, chain, w, n);
      Reached(mem0, all0, m1, a1, c1, arr[..], all, chain, home, shift, w, h, prev, pending, next, n);
    }

    /** Walks the locked chain, stitching together the entries that stay. */
    method PurgeImplLocked(clockUpdate: bool, before: EvictionData)
        returns (evicted: seq<nat>, data: EvictionData, saved: Link)
      requires Valid() && locked && (quiet ==> ours == {} && SameEntries(initial, arr[..]))
      modifies arr, `script, `chain, `all, `locked, `ours
      ensures Valid() && Since(old(arr[..]), old(all), arr[..], all) && (quiet ==> ours == Elems(evicted))
      // what was under construction is unlinked; evicted entries are reported once, counted and unlinked
      ensures Clear(chain, Dead(old(arr[..]), old(chain)), evicted) && NoDup(evicted)
      ensures data.freedCount == before.freedCount + |evicted|
          && data.freedCharge == before.freedCharge + Charges(old(arr[..]), evicted)
      // with no other thread at work, every entry that stays was clock-updated once, if asked for
      ensures (quiet && !clockUpdate ==> SameEntries(old(arr[..]), arr[..]))
          && (quiet && clockUpdate ==> AllVisited(old(arr[..]), arr[..], chain))
      ensures quiet && clockUpdate ==> data.seenPinned == before.seenPinned + PinnedOn(old(arr[..]), old(chain))
      ensures (!clockUpdate ==> evicted == []) && (saved.end <==> !locked) && (locked <==> chain != [])
    {
      hide Charges, Elems, Chained, Account, ScriptOk, Only, Walking, Evolved, LinkAt, NoDup, Cut, Extends, Tracks,
          Valid, Since, Clear, Resting, Lock;
      hide SameEntries, Progress, AllVisited, Visited, OnlyAt, PinnedOn;
      ghost var chain0 := chain;
      ghost var dead, mem0, all0, on := Dead(arr[..], chain), arr[..], all, quiet && clockUpdate;
      HeadRead();
      saved := arr[home].head;
      var next, h, prev, pending := saved, saved.next as int, -1, false;
      ghost var w, n := Walk(0, 0, 0, saved, []), 0;
      evicted, data := [], before;
      WalkStarts(mem0, home, shift, all, chain, saved);
      TracksStart(chain, home, shift, saved, w);
      SinceStart(mem0, all0);
      SameTrans(mem0, mem0, mem0);
      NoCharges(mem0);
      ProgressStarts(on, mem0, all, chain);
      assert chain[0..] == chain;
      while true
        invariant Valid() && locked && Walking(arr[..], home, shift, all, chain, dead, w)
        invariant Tracks(chain, home, shift, w, h, prev, pending, next) && saved == w.saved && evicted == w.evicted
        invariant Since(mem0, all0, arr[..], all) && (quiet && !clockUpdate ==> SameEntries(mem0, arr[..]))
        invariant (quiet ==> w.f == 0) && Progress(on, mem0, arr[..], chain, w.k, w.r)
        invariant data.freedCount == before.freedCount + |evicted| && (!clockUpdate ==> evicted == [])
        invariant data.freedCharge == before.freedCharge + Charges(mem0, evicted) && (quiet ==> ours == Elems(evicted))
        invariant on ==>
            w.r <= |chain|
            && data.seenPinned + PinnedOn(mem0, chain[w.r..]) == before.seenPinned + PinnedOn(mem0, chain0)
        decreases |script| + w.f, |chain| - w.r
      {
        var purgeable, evicting;
        purgeable, evicting, data, n := Look(h, clockUpdate, data, dead, w, on, mem0, all0, prev, pending, next);
        w := Shifted(w, n);
        HereIs(chain, home, shift, w, h, prev, pending, next);
        PinnedAhead(mem0, chain, w.r);
        if purgeable {
          HeadRead();
          ChargesAppend(mem0, all0, arr[..], all, evicted, h);
          ElemsAppend(evicted, h);
          w := Passed(arr[..], home, shift, all, chain, dead, w, h, prev, pending, next, evicting);
          evicted, pending := if evicting then evicted + [h] else evicted, true;
        } else {
          ghost var m1, c1, w1 := arr[..], chain, w;
          var restart;
          restart, saved, w := Stitch(h, prev, pending, next, saved, dead, w);
          SinceSame(mem0, all0, m1, arr[..], all);
          SameTrans(mem0, m1, arr[..]);
          if restart {
            ProgressOff(mem0, arr[..], chain, w.k, w.r);
            next, h, pending := saved, saved.next, false;
            continue;
          }
          ProgressStitched(on, mem0, m1, arr[..], c1, chain, w1, h);
          CutAhead(c1, w1.k, w1.r);
          if h < 0 {
            break;
          }
          prev, pending := h, false;
        }
        next, n := Follow(h, dead, w, on, mem0, all0, prev, pending);
        w := Shifted(w, n);
        h := if next.end then -1 else next.next;
      }
    }

    /** PurgeImpl on a known home: lock the chain unless it is empty, walk it, unlock it. */
    method Purge(clockUpdate: bool, before: EvictionData) returns (evicted: seq<nat>, data: EvictionData)
      requires Valid() && !locked && (quiet ==> ours == {} && SameEntries(initial, arr[..]))
      modifies arr, `script, `chain, `all, `locked, `ours
      ensures Valid() && !locked && Since(old(arr[..]), old(all), arr[..], all) && (quiet ==> ours == Elems(evicted))
      ensures Clear(chain, Dead(old(arr[..]), old(chain)), evicted) && NoDup(evicted)
      ensures data.freedCount == before.freedCount + |evicted|
          && data.freedCharge == before.freedCharge + Charges(old(arr[..]), evicted)
      ensures (!clockUpdate ==> evicted == []) && Kept(arr[..], all, chain)
          && (quiet && !clockUpdate ==> SameEntries(old(arr[..]), arr[..]))
      ensures quiet && clockUpdate ==>
          AllVisited(old(arr[..]), arr[..], chain)
          && data.seenPinned == before.seenPinned + PinnedOn(old(arr[..]), old(chain))
    {
      hide AllVisited, SameEntries, Kept, Chained, Account, ScriptOk, Evolved, Valid, Since, Clear, Charges, Only,
          NoDup, Dead, Elems, PinnedOn;
      ghost var mem0, chain0, all0 := arr[..], chain, all;
      evicted, data := [], before;
      SinceStart(mem0, all0);
      NoCharges(mem0);
      Unlocked();
      if arr[home].head.end {
        InOrder();
        SameTrans(mem0, mem0, mem0);
        NoneVisited(mem0);
        PinnedAhead(mem0, [], 0);
        return;
      }
      SetLock(true);
      ghost var mem1 := arr[..];
      DeadSame(mem0, mem1, chain);
      SameTrans(initial, mem0, mem1);
      PinnedSame(mem0, mem1, chain);
      var saved;
      evicted, data, saved := PurgeImplLocked(clockUpdate, before);
      SinceFirst(mem0, mem1, all0, arr[..], all);
      ChargesSame(mem0, mem1, evicted);
      SameTrans(mem0, mem1, arr[..]);
      ghost var mem1' := arr[..];
      if !saved.end {
        ghost var mem2 := arr[..];
        SetLock(false);
        SameTrans(mem0, mem2, arr[..]);
        SinceSame(mem0, all0, mem2, arr[..], all);
      } else {
        SameTrans(mem1', mem1', mem1');
      }
      if quiet && clockUpdate {
        VisitedSame(mem0, mem1, mem1', arr[..], chain);
      }
      InOrder();
    }

    /** What a purge leaves behind when no other thread interfered. */
    lemma Outcome()
      requires Valid() && quiet && !locked
      ensures Chained(arr[..], home, shift, chain, false) && Account(arr[..], first, chain)
      ensures Local(initial, arr[..], home, first) && Alone(initial, arr[..], first, ours)
    {
    }

    /** A purge with clock updates and nobody else at work has done to each word what one clock update does;
        it reports exactly the entries that had expired. */
    lemma OneTick(evicted: seq<nat>)
      requires Valid() && quiet && !locked && ours == Elems(evicted)
      requires AllVisited(initial, arr[..], chain) && Kept(arr[..], all, chain)
      ensures forall e | e in evicted :: e in first
      ensures forall e | e in first ::
        && e < |initial| == arr.Length && (e in evicted <==> Expired(initial[e].meta))
        && (e in evicted ==> arr[e].meta.state.Construction?)
        && (e !in evicted ==> arr[e].meta == Tick(initial[e].meta))
    {
      hide Chained, Account, Local, ScriptOk, Only;
      forall e | e in evicted ensures e in first {
        assert e in Elems(evicted);
      }
      forall e | e in first
        ensures e < |initial| == arr.Length && (e in evicted <==> Expired(initial[e].meta))
        ensures e in evicted ==> arr[e].meta.state.Construction?
        ensures e !in evicted ==> arr[e].meta == Tick(initial[e].meta)
      {
        assert e in evicted <==> e in Elems(evicted);
        if e in chain {
          assert Visited(initial, arr[..], e);
        }
      }
    }

    lemma InOrder()
      requires Valid()
      ensures Kept(arr[..], all, chain)
    {
      hide Only;
    }

    method SetLock(to: bool)
      requires Valid() && chain != []
      modifies arr, `locked
      ensures Valid() && locked == to && Evolved(old(arr[..]), arr[..]) && SameEntries(old(arr[..]), arr[..])
    {
      hide Account, ScriptOk, Only, NoDup, Local, Alone;
      ghost var mem, now := arr[..], WithHead(arr[..], home, arr[home].head.(locked := to));
      LocalStep(initial, mem, now, home, all, all, |mem|);
      if quiet {
        AloneLinks(initial, mem, now, all, ours);
      }
      AccountSame(mem, now, all, chain);
      ScriptSame(mem, now, all, script);
      arr[home] := arr[home].(head := arr[home].head.(locked := to));
      assert arr[..] == now;
      locked := to;
    }

    lemma Unlocked()
      requires Valid() && !locked
      ensures home < arr.Length && (arr[home].head.end <==> chain == []) && NoDup<nat>([])
      ensures chain == [] ==> Clear(chain, Dead(arr[..], chain), [])
    {
    }

    lemma HeadRead()
      requires Valid() && locked
      ensures home < arr.Length && chain != [] && arr[home].head == Lock(LinkAt(chain, 0, home, shift), true)
      ensures Account(arr[..], all, chain) && NoDup(chain)
    {
    }
  }

  /** The entries under construction when the walk starts. */
  ghost function Dead(mem: seq<Slot>, chain: seq<nat>): set<nat> {
    set e | e in chain && e < |mem| && mem[e].meta.state.Construction?
  }

  /** The local variables of the walk. */
  ghost predicate Tracks(chain: seq<nat>, home: nat, shift: nat, w: Walk, h: int, prev: int, pending: bool,
      next: Link) {
    && w.f <= w.k <= w.r <= |chain|
    && h == (if w.r < |chain| then chain[w.r] else -1)
    && prev == (if w.f < w.k then chain[w.k - 1] else -1)
    && pending == (w.k < w.r)
    && (pending ==> next == LinkAt(chain, w.r, home, shift))
  }

  /** Between looking at entry `e` and reading its link. */
  ghost predicate Resting(chain: seq<nat>, w: Walk, e: int, prev: int, pending: bool) {
    && w.f <= w.k <= w.r <= |chain| && 0 < w.r && e == chain[w.r - 1]
    && prev == (if w.f < w.k then chain[w.k - 1] else -1) && pending == (w.k < w.r)
  }

  ghost predicate Clear(chain: seq<nat>, dead: set<nat>, evicted: seq<nat>) {
    forall e | e in chain :: e !in dead && e !in evicted
  }

  /** Every entry that stayed shareable is still on the chain, in the original order. */
  ghost predicate Kept(mem: seq<Slot>, all: seq<nat>, chain: seq<nat>) {
    && chain == Only(all, Elems(chain))
    && forall e | e in all :: e < |mem| && (mem[e].meta.Shareable() ==> e in chain)
  }

  /** An entry has been clock-updated and stays. */
  ghost predicate Visited(mem0: seq<Slot>, mem: seq<Slot>, e: nat) {
    e < |mem0| && e < |mem| && Aged(mem0[e].meta, mem[e].meta)
  }

  ghost predicate Unseen(mem0: seq<Slot>, mem: seq<Slot>, e: nat) {
    e < |mem0| == |mem| && mem[e].meta == mem0[e].meta
  }

  ghost predicate AllVisited(mem0: seq<Slot>, mem: seq<Slot>, chain: seq<nat>) {
    forall e | e in chain :: Visited(mem0, mem, e)
  }

  ghost predicate OnlyAt(a: seq<Slot>, b: seq<Slot>, h: nat) {
    |a| == |b| && forall x | 0 <= x < |a| && x != h :: a[x] == b[x]
  }

  /** Without other threads: the entries kept so far have been visited once, those ahead not at all. */
  ghost predicate Progress(on: bool, mem0: seq<Slot>, mem: seq<Slot>, chain: seq<nat>, k: nat, r: nat) {
    on ==>
      && k <= |chain|
      && (forall i | 0 <= i < k :: Visited(mem0, mem, chain[i]))
      && (forall i | r <= i < |chain| :: Unseen(mem0, mem, chain[i]))
  }

  /** The referenced ones of the listed entries. */
  function PinnedOn(mem: seq<Slot>, s: seq<nat>): nat {
    if s == [] then 0
    else (if s[0] < |mem| && Pinned(mem[s[0]].meta) then 1 else 0) + PinnedOn(mem, s[1..])
  }

  lemma PinnedAhead(mem: seq<Slot>, chain: seq<nat>, r: nat)
    requires r <= |chain|
    ensures r == |chain| ==> PinnedOn(mem, chain[r..]) == 0 == PinnedOn(mem, [])
    ensures r < |chain| ==> PinnedOn(mem, chain[r..]) == PinnedOn(mem, [chain[r]]) + PinnedOn(mem, chain[r + 1..])
  {
    if r < |chain| {
      assert chain[r..][1..] == chain[r + 1..];
    }
  }

  /** Cutting out what was passed leaves what is ahead. */
  lemma CutAhead(chain: seq<nat>, k: nat, r: nat)
    requires k <= r <= |chain|
    ensures r < |chain| ==> k + 1 <= |Cut(chain, k, r)| && Cut(chain, k, r)[k + 1..] == chain[r + 1..]
  {
    hide Cut;
    if r < |chain| {
      forall i | k <= i < |Cut(chain, k, r)| ensures Cut(chain, k, r)[i] == chain[i + (r - k)] {
        CutAt(chain, k, r, i);
      }
    }
  }

  lemma {:induction false} PinnedSame(a: seq<Slot>, b: seq<Slot>, s: seq<nat>)
    requires SameEntries(a, b)
    ensures PinnedOn(a, s) == PinnedOn(b, s)
  {
    if s != [] {
      PinnedSame(a, b, s[1..]);
    }
  }

  lemma UnseenHere(on: bool, initial: seq<Slot>, mem0: seq<Slot>, mem: seq<Slot>, chain: seq<nat>, w: Walk, h: nat)
    requires Progress(on, mem0, mem, chain, w.k, w.r) && w.r < |chain| && h == chain[w.r]
    requires on ==> SameEntries(initial, mem0)
    ensures on ==> Unseen(initial, mem, h) && Unseen(mem0, mem, h)
  {
  }

  lemma NoneVisited(mem: seq<Slot>)
    ensures AllVisited(mem, mem, [])
  {
  }

  lemma VisitedSame(mem0: seq<Slot>, mem1: seq<Slot>, mem2: seq<Slot>, mem: seq<Slot>, chain: seq<nat>)
    requires AllVisited(mem1, mem2, chain) && SameEntries(mem0, mem1) && SameEntries(mem2, mem)
    ensures AllVisited(mem0, mem, chain)
  {
  }

  lemma ProgressStarts(on: bool, mem: seq<Slot>, all: seq<nat>, chain: seq<nat>)
    requires Account(mem, all, chain)
    ensures Progress(on, mem, mem, chain, 0, 0)
  {
    hide Only, NoDup;
    ChainElems(all, chain);
    assert forall i | 0 <= i < |chain| :: chain[i] in chain;
  }

  lemma ProgressOff(mem0: seq<Slot>, mem: seq<Slot>, chain: seq<nat>, k: nat, r: nat)
    ensures Progress(false, mem0, mem, chain, k, r)
  {
  }

  lemma OnlySame(mem: seq<Slot>, h: nat)
    ensures OnlyAt(mem, mem, h)
  {
  }

  lemma ProgressMoved(on: bool, mem0: seq<Slot>, mem1: seq<Slot>, mem: seq<Slot>, all1: seq<nat>, chain1: seq<nat>,
      all: seq<nat>, chain: seq<nat>, w: Walk, n: nat)
    requires Progress(on, mem0, mem1, chain1, w.k, w.r) && Extends(all1, chain1, all, chain, n)
        && (on ==> n == 0 && mem == mem1)
    ensures Progress(on, mem0, mem, chain, Shifted(w, n).k, Shifted(w, n).r)
  {
    if on {
      assert chain == chain[0..] == chain1;
    }
  }

  lemma ProgressExamined(on: bool, mem0: seq<Slot>, mem1: seq<Slot>, mem: seq<Slot>, all1: seq<nat>, chain1: seq<nat>,
      all: seq<nat>, chain: seq<nat>, w: Walk, n: nat, h: nat, purgeable: bool)
    requires Progress(on, mem0, mem1, chain1, w.k, w.r) && Extends(all1, chain1, all, chain, n) && NoDup(chain1)
        && w.k <= w.r < |chain1| && h == chain1[w.r]
    requires on ==> n == 0 && OnlyAt(mem1, mem, h) && (!purgeable ==> Visited(mem1, mem, h))
    ensures Progress(on, mem0, mem, chain, Shifted(w, n).k, Shifted(w, n).r + 1)
    ensures on && !purgeable ==> Visited(mem0, mem, h)
  {
    if on {
      assert chain == chain[0..] == chain1;
    }
  }

  lemma ProgressStitched(on: bool, mem0: seq<Slot>, mem1: seq<Slot>, mem: seq<Slot>, chain1: seq<nat>, chain: seq<nat>,
      w: Walk, h: int)
    requires w.k <= w.r <= |chain1| && chain == Cut(chain1, w.k, w.r) && SameEntries(mem1, mem)
    requires h == (if w.r < |chain1| then chain1[w.r] else -1)
    requires if h >= 0 then Progress(on, mem0, mem1, chain1, w.k, w.r + 1) && (on ==> Visited(mem0, mem1, h))
        else Progress(on, mem0, mem1, chain1, w.k, w.r)
    ensures h >= 0 ==> Progress(on, mem0, mem, chain, w.k + 1, w.k + 1)
    ensures h < 0 && on ==> AllVisited(mem0, mem, chain)
  {
    hide Cut, Aged;
    if on {
      forall i | 0 <= i < |chain| && (i < w.k || (i == w.k && h >= 0)) ensures Visited(mem0, mem, chain[i]) {
        CutAt(chain1, w.k, w.r, i);
        assert Visited(mem0, mem1, chain[i]);
      }
      forall i | w.k + 1 <= i < |chain| ensures Unseen(mem0, mem, chain[i]) {
        CutAt(chain1, w.k, w.r, i);
        assert chain[i] == chain1[i + (w.r - w.k)];
      }
    } else {
      ProgressOff(mem0, mem, chain, w.k + 1, w.k + 1);
    }
  }

  /** Nothing that was on the chain is forgotten, and entries under construction stay so. */
  ghost predicate Since(mem0: seq<Slot>, all0: seq<nat>, mem: seq<Slot>, all: seq<nat>) {
    Evolved(mem0, mem) && IsSuffix(all0, all)
  }

  lemma SinceStart(mem: seq<Slot>, all: seq<nat>)
    ensures Since(mem, all, mem, all)
  {
  }

  lemma SinceStep(mem0: seq<Slot>, all0: seq<nat>, mem1: seq<Slot>, all1: seq<nat>, mem: seq<Slot>, all: seq<nat>)
    requires Since(mem0, all0, mem1, all1) && Evolved(mem1, mem) && IsSuffix(all1, all)
    ensures Since(mem0, all0, mem, all)
  {
    hide Evolved;
    EvolvedTrans(mem0, mem1, mem);
    var n, n1 := |all| - |all1|, |all1| - |all0|;
    assert all[n..][n1..] == all[n + n1..];
  }

  function Charges(mem: seq<Slot>, s: seq<nat>): nat {
    if s == [] then 0 else Charges(mem, s[..|s| - 1]) + (if s[|s| - 1] < |mem| then mem[s[|s| - 1]].charge else 0)
  }

  lemma ElemsAppend(s: seq<nat>, h: nat)
    ensures Elems(s + [h]) == Elems(s) + {h}
  {
  }

  lemma NoCharges(mem: seq<Slot>)
    ensures Charges(mem, []) == 0 && Elems([]) == {}
  {
  }

  lemma ChargesAppend(mem0: seq<Slot>, all0: seq<nat>, mem: seq<Slot>, all: seq<nat>, evicted: seq<nat>, h: int)
    requires Since(mem0, all0, mem, all) && 0 <= h < |mem|
    ensures Charges(mem0, evicted + [h]) == Charges(mem0, evicted) + mem[h].charge
  {
    assert (evicted + [h])[..|evicted|] == evicted;
  }

  /** Same metadata and charges. */
  ghost predicate SameEntries(a: seq<Slot>, b: seq<Slot>) {
    |a| == |b| && forall e | 0 <= e < |a| :: a[e].meta == b[e].meta && a[e].charge == b[e].charge
  }

  lemma SameTrans(a: seq<Slot>, b: seq<Slot>, c: seq<Slot>)
    ensures SameEntries(a, a) && (SameEntries(a, b) && SameEntries(b, c) ==> SameEntries(a, c))
  {
  }

  lemma DeadSame(a: seq<Slot>, b: seq<Slot>, chain: seq<nat>)
    requires SameEntries(a, b)
    ensures Dead(a, chain) == Dead(b, chain)
  {
  }

  lemma {:induction false} ChargesSame(a: seq<Slot>, b: seq<Slot>, s: seq<nat>)
    requires SameEntries(a, b)
    ensures Charges(a, s) == Charges(b, s)
  {
    if s != [] {
      ChargesSame(a, b, s[..|s| - 1]);
    }
  }

  lemma SinceFirst(mem0: seq<Slot>, mem1: seq<Slot>, all0: seq<nat>, mem: seq<Slot>, all: seq<nat>)
    requires Evolved(mem0, mem1) && Since(mem1, all0, mem, all)
    ensures Since(mem0, all0, mem, all)
  {
    EvolvedTrans(mem0, mem1, mem);
  }

  lemma SinceSame(mem0: seq<Slot>, all0: seq<nat>, mem1: seq<Slot>, mem: seq<Slot>, all: seq<nat>)
    requires Since(mem0, all0, mem1, all) && Evolved(mem1, mem)
    ensures Since(mem0, all0, mem, all)
  {
    hide Evolved;
    SinceStep(mem0, all0, mem1, all, mem, all);
  }

  lemma ShiftedAt(chain: seq<nat>, chain': seq<nat>, n: nat, i: nat)
    requires |chain'| == |chain| + n && chain'[n..] == chain && i < |chain|
    ensures chain'[n + i] == chain[i]
  {
    assert chain'[n..][i] == chain'[n + i];
  }

  lemma ShiftedLink(chain: seq<nat>, chain': seq<nat>, n: nat, i: nat, home: nat, shift: nat)
    requires |chain'| == |chain| + n && chain'[n..] == chain
    ensures LinkAt(chain', n + i, home, shift) == LinkAt(chain, i, home, shift)
  {
    if i < |chain| {
      ShiftedAt(chain, chain', n, i);
    }
  }

  /** Other threads' steps leave the walk where it is, only further from the head. */
  lemma Moved(mem0: seq<Slot>, all0: seq<nat>, mem1: seq<Slot>, all1: seq<nat>, chain1: seq<nat>, mem: seq<Slot>,
      all: seq<nat>, chain: seq<nat>, home: nat, shift: nat, w: Walk, h: int, prev: int, pending: bool, next: Link,
      n: nat)
    requires Since(mem0, all0, mem1, all1) && Evolved(mem1, mem) && Extends(all1, chain1, all, chain, n)
    requires Tracks(chain1, home, shift, w, h, prev, pending, next)
    ensures Since(mem0, all0, mem, all) && Tracks(chain, home, shift, Shifted(w, n), h, prev, pending, next)
    ensures |chain| == |chain1| + n
  {
    hide Evolved, LinkAt;
    SinceStep(mem0, all0, mem1, all1, mem, all);
    ShiftedLink(chain1, chain, n, w.r, home, shift);
    if w.r < |chain1| {
      ShiftedAt(chain1, chain, n, w.r);
    }
    if w.f < w.k {
      ShiftedAt(chain1, chain, n, w.k - 1);
    }
  }

  lemma Reached(mem0: seq<Slot>, all0: seq<nat>, mem1: seq<Slot>, all1: seq<nat>, chain1: seq<nat>, mem: seq<Slot>,
      all: seq<nat>, chain: seq<nat>, home: nat, shift: nat, w: Walk, e: int, prev: int, pending: bool, next: Link,
      n: nat)
    requires Since(mem0, all0, mem1, all1) && Evolved(mem1, mem) && Extends(all1, chain1, all, chain, n)
    requires Resting(chain1, w, e, prev, pending) && next == LinkAt(chain, w.r + n, home, shift)
    ensures Since(mem0, all0, mem, all) && |chain| == |chain1| + n && w.r <= |chain1|
    ensures Tracks(chain, home, shift, Shifted(w, n), if next.end then -1 else next.next, prev, pending, next)
  {
    hide Evolved;
    SinceStep(mem0, all0, mem1, all1, mem, all);
    if w.f < w.k {
      ShiftedAt(chain1, chain, n, w.k - 1);
    }
  }

  lemma RestsAt(chain: seq<nat>, w: Walk, e: int, prev: int, pending: bool)
    requires Resting(chain, w, e, prev, pending)
    ensures 0 < w.r <= |chain| && e == chain[w.r - 1]
  {
  }

  lemma HereIs(chain: seq<nat>, home: nat, shift: nat, w: Walk, h: int, prev: int, pending: bool, next: Link)
    requires Tracks(chain, home, shift, w, h, prev, pending, next)
    ensures h >= 0 <==> w.r < |chain|
    ensures h >= 0 ==> h == chain[w.r]
    ensures w.k <= w.r <= |chain| && (h < 0 ==> h == -1)
  {
  }

  /** The entry looked at is to be purged. */
  lemma Passed(mem: seq<Slot>, home: nat, shift: nat, all: seq<nat>, chain: seq<nat>, dead: set<nat>, w: Walk, h: int,
      prev: int, pending: bool, next: Link, evicting: bool) returns (w': Walk)
    requires Walking(mem, home, shift, all, chain, dead, w) && Tracks(chain, home, shift, w, h, prev, pending, next)
        && NoDup(chain) && Account(mem, all, chain)
    requires 0 <= h < |mem| && mem[h].meta.state.Construction? && (evicting ==> h !in w.evicted)
    ensures w' == w.(r := w.r + 1, evicted := if evicting then w.evicted + [h] else w.evicted)
    ensures Walking(mem, home, shift, all, chain, dead, w') && Resting(chain, w', h, prev, true)
  {
    hide LinkAt, Only;
    ChainElems(all, chain);
    assert chain[w.r] == h && h in chain;
    w' := w.(r := w.r + 1, evicted := if evicting then w.evicted + [h] else w.evicted);
    forall i | 0 <= i < w.k ensures chain[i] !in w'.evicted {
      assert chain[i] != chain[w.r];
    }
  }

  /** Once the pending entries are cut out, the walk stands right behind what is kept. */
  lemma TracksCut(chain: seq<nat>, home: nat, shift: nat, w: Walk, h: int, prev: int, next: Link)
    requires Tracks(chain, home, shift, w, h, prev, true, next)
    ensures w.f <= w.k < w.r <= |chain| && next == LinkAt(chain, w.r, home, shift) && (prev >= 0 <==> w.f < w.k)
    ensures prev >= 0 ==> prev == chain[w.k - 1]
    ensures h >= 0 <==> w.k < |Cut(chain, w.k, w.r)|
    ensures h >= 0 ==> h == Cut(chain, w.k, w.r)[w.k]
  {
    hide Cut, LinkAt;
    if w.r < |chain| {
      CutAt(chain, w.k, w.r, w.k);
    }
  }

  lemma WalkKeep(mem: seq<Slot>, home: nat, shift: nat, all: seq<nat>, chain: seq<nat>, dead: set<nat>, w: Walk, h: nat)
    requires Walking(mem, home, shift, all, chain, dead, w) && w.k == w.r < |chain| && h == chain[w.k] && h !in dead
        && h !in w.evicted
    ensures Walking(mem, home, shift, all, chain, dead, w.(k := w.k + 1, r := w.r + 1))
    ensures Resting(chain, w.(k := w.k + 1, r := w.r + 1), h, h, false)
  {
  }

  lemma WalkClear(mem: seq<Slot>, home: nat, shift: nat, all: seq<nat>, chain: seq<nat>, dead: set<nat>, w: Walk)
    requires Walking(mem, home, shift, all, chain, dead, w) && w.k == w.r == |chain|
    ensures Clear(chain, dead, w.evicted)
  {
  }

  lemma WalkStarts(mem: seq<Slot>, home: nat, shift: nat, all: seq<nat>, chain: seq<nat>, saved: Link)
    requires Account(mem, all, chain) && chain != [] && saved == Lock(LinkAt(chain, 0, home, shift), true)
    ensures Walking(mem, home, shift, all, chain, Dead(mem, chain), Walk(0, 0, 0, saved, []))
  {
    hide LinkAt;
    ChainElems(all, chain);
    assert forall i | 0 <= i < |chain| :: chain[i] in chain;
  }

  lemma TracksStart(chain: seq<nat>, home: nat, shift: nat, saved: Link, w: Walk)
    requires chain != [] && saved == Lock(LinkAt(chain, 0, home, shift), true) && w.f == w.k == w.r == 0
    ensures Tracks(chain, home, shift, w, saved.next, -1, false, saved)
  {
  }

  /** The chain and everything that was on it have `n` more entries in front. */
  ghost predicate Extends(all: seq<nat>, chain: seq<nat>, all': seq<nat>, chain': seq<nat>, n: nat) {
    && |all'| == |all| + n && all'[n..] == all
    && |chain'| == |chain| + n && chain'[n..] == chain
  }

  lemma ExtendsBy(all: seq<nat>, chain: seq<nat>, pre: seq<nat>)
    ensures Extends(all, chain, pre + all, pre + chain, |pre|)
  {
  }

  lemma ExtendsNone(all: seq<nat>, chain: seq<nat>, all': seq<nat>, chain': seq<nat>, n: nat)
    requires Extends(all, chain, all', chain', n)
    ensures n == 0 ==> chain' == chain
  {
    if n == 0 {
      assert chain' == chain'[0..];
    }
  }

  lemma NothingPushed(all: seq<nat>, chain: seq<nat>, w: Walk)
    ensures Extends(all, chain, all, chain, 0) && Shifted(w, 0) == w
  {
  }

  lemma PushedInRange(mem: seq<Slot>, pre: seq<nat>, all: seq<nat>, chain: seq<nat>)
    requires Account(mem, pre + all, chain)
    ensures NoDup(pre + all) && forall e | e in pre :: e < |mem|
  {
    forall e | e in pre ensures e < |mem| {
      assert e in pre + all;
    }
  }

  lemma NotDead(mem: seq<Slot>, home: nat, shift: nat, all: seq<nat>, chain: seq<nat>, dead: set<nat>, w: Walk, h: nat)
    requires Walking(mem, home, shift, all, chain, dead, w) && h < |mem|
    ensures !mem[h].meta.state.Construction? ==> h !in dead && h !in w.evicted
  {
  }

  lemma InRange(mem: seq<Slot>, all: seq<nat>, chain: seq<nat>, h: nat)
    requires Account(mem, all, chain) && h in chain
    ensures h in all && h < |mem| && !mem[h].meta.state.Empty?
  {
    ChainElems(all, chain);
  }

  // ---------------------------------------------------------------------------------------
  // The walk: positions f..k of the chain are kept, k..r are to be unlinked, r.. are still to come;
  // entries before f were pushed since the head was last read

  datatype Walk = Walk(f: nat, k: nat, r: nat, saved: Link, evicted: seq<nat>)

  ghost predicate Walking(mem: seq<Slot>, home: nat, shift: nat, all: seq<nat>, chain: seq<nat>, dead: set<nat>,
      w: Walk) {
    && w.f <= w.k <= w.r <= |chain| && w.f < |chain| && w.saved == Lock(LinkAt(chain, w.f, home, shift), true)
    && (forall i | 0 <= i < |chain| :: chain[i] < |mem|)
    && (forall i | w.k <= i < w.r :: mem[chain[i]].meta.state.Construction?)
    && (forall i | 0 <= i < w.k :: chain[i] !in dead && chain[i] !in w.evicted)
    && (forall e | e in dead || e in w.evicted :: e in all && e < |mem| && mem[e].meta.state.Construction?)
    && NoDup(w.evicted)
  }

  function Shifted(w: Walk, n: nat): Walk { w.(f := w.f + n, k := w.k + n, r := w.r + n) }

  lemma WalkShift(mem: seq<Slot>, now: seq<Slot>, home: nat, shift: nat, all: seq<nat>, chain: seq<nat>,
      dead: set<nat>, w: Walk, pre: seq<nat>)
    requires Walking(mem, home, shift, all, chain, dead, w) && Evolved(mem, now)
    requires NoDup(pre + all) && forall e | e in pre :: e < |now|
    ensures Walking(now, home, shift, pre + all, pre + chain, dead, Shifted(w, |pre|))
  {
    hide NoDup, LinkAt;
    var c, v, n := pre + chain, Shifted(w, |pre|), |pre|;
    assert forall i | 0 <= i < |c| :: c[i] == if i < n then pre[i] else chain[i - n];
    assert LinkAt(c, v.f, home, shift) == LinkAt(chain, w.f, home,
        shift) by { LinkShift(pre, chain, w.f, home, shift); }
    forall i | 0 <= i < |c| ensures c[i] < |now| {
      assert i < n ==> c[i] in pre;
    }
    forall i | v.k <= i < v.r ensures now[c[i]].meta.state.Construction? {
      assert mem[chain[i - n]].meta.state.Construction?;
    }
    forall i | 0 <= i < v.k ensures c[i] !in dead && c[i] !in v.evicted {
      if i < n {
        PreApart(pre, all, i);
      }
    }
    forall e | e in dead || e in v.evicted ensures e in pre + all && e < |now| && now[e].meta.state.Construction? {
      assert mem[e].meta.state.Construction?;
    }
  }

  lemma LinkShift(pre: seq<nat>, chain: seq<nat>, i: nat, home: nat, shift: nat)
    ensures LinkAt(pre + chain, |pre| + i, home, shift) == LinkAt(chain, i, home, shift)
  {
  }

  lemma PreApart(pre: seq<nat>, all: seq<nat>, i: nat)
    requires NoDup(pre + all) && i < |pre|
    ensures pre[i] !in all
  {
    var s := pre + all;
    forall j | 0 <= j < |all| ensures all[j] != pre[i] {
      assert s[|pre| + j] == all[j] && s[i] == pre[i];
    }
  }

  lemma EvolvedRefl(mem: seq<Slot>)
    ensures Evolved(mem, mem)
  {
  }

  lemma PushEvolves(mem: seq<Slot>, home: nat, e: nat, l: Link, head: Link)
    requires home < |mem| && e < |mem|
    ensures Evolved(mem, WithHead(WithChain(mem, e, l), home, head))
    ensures WithHead(WithChain(mem, e, l), home, head)[e].meta == mem[e].meta
  {
  }

  /** What the next step of another thread relies on. */
  lemma FirstOk(mem: seq<Slot>, all: seq<nat>, chain: seq<nat>, script: seq<Interference>, home: nat, shift: nat,
      locked: bool)
    requires ScriptOk(mem, all, script) && script != [] && Account(mem, all, chain)
        && Chained(mem, home, shift, chain, locked)
    ensures home < |mem| && script[0].e < |mem| && mem[home].head == Lock(LinkAt(chain, 0, home, shift), locked)
    ensures script[0].Push? ==> script[0].e !in all && script[0].e !in chain && !mem[script[0].e].meta.state.Empty?
  {
    ChainElems(all, chain);
  }

  lemma LinkEvolves(mem: seq<Slot>, e: nat, l: Link)
    requires e < |mem|
    ensures Evolved(mem, WithChain(mem, e, l))
  {
  }

  lemma HeadEvolves(mem: seq<Slot>, e: nat, l: Link)
    requires e < |mem|
    ensures Evolved(mem, WithHead(mem, e, l))
  {
  }

  lemma ChainedOnce(mem: seq<Slot>, home: nat, shift: nat, chain: seq<nat>, locked: bool)
    requires Chained(mem, home, shift, chain, locked)
    ensures NoDup(chain) && home < |mem|
  {
  }

  lemma ChainedEmpty(mem: seq<Slot>, home: nat, shift: nat)
    requires Chained(mem, home, shift, [], true)
    ensures Chained(mem, home, shift, [], false)
  {
  }

  lemma WalkRange(mem: seq<Slot>, home: nat, shift: nat, all: seq<nat>, chain: seq<nat>, dead: set<nat>, w: Walk)
    requires Walking(mem, home, shift, all, chain, dead, w)
    ensures w.f <= w.k <= w.r <= |chain| && w.f < |chain| && NoDup(w.evicted) && !w.saved.end
    ensures forall i | 0 <= i < |chain| :: chain[i] < |mem|
    ensures forall i | w.k <= i < w.r :: chain[i] < |mem| && mem[chain[i]].meta.state.Construction?
  {
  }

  lemma WalkCut(mem: seq<Slot>, now: seq<Slot>, home: nat, shift: nat, all: seq<nat>, chain: seq<nat>, dead: set<nat>,
      w: Walk)
    requires Walking(mem, home, shift, all, chain, dead, w) && Evolved(mem, now) && w.f < w.k
    ensures Walking(now, home, shift, all, Cut(chain, w.k, w.r), dead, w.(r := w.k))
  {
    hide NoDup, Cut, LinkAt;
    var d := Cut(chain, w.k, w.r);
    forall i | 0 <= i < |d| ensures d[i] == chain[if i < w.k then i else i + (w.r - w.k)] {
      CutAt(chain, w.k, w.r, i);
    }
    CutLink(chain, w.k, w.r, w.f, home, shift);
  }

  lemma WalkDrop(mem: seq<Slot>, now: seq<Slot>, home: nat, shift: nat, all: seq<nat>, chain: seq<nat>, dead: set<nat>,
      w: Walk, saved: Link)
    requires Walking(mem, home, shift, all, chain, dead, w) && Evolved(mem, now) && w.f == w.k == 0
    requires saved == Lock(LinkAt(chain, w.r, home, shift), true)
    ensures Cut(chain, 0, w.r) != [] ==>
        Walking(now, home, shift, all, Cut(chain, 0, w.r), dead, w.(r := 0, saved := saved))
  {
    hide NoDup, Cut, LinkAt;
    var d := Cut(chain, 0, w.r);
    forall i | 0 <= i < |d| ensures d[i] == chain[i + w.r] {
      CutAt(chain, 0, w.r, i);
    }
    CutLink(chain, 0, w.r, 0, home, shift);
  }

  lemma WalkAgain(mem: seq<Slot>, home: nat, shift: nat, all: seq<nat>, chain: seq<nat>, dead: set<nat>, w: Walk,
      saved: Link)
    requires Walking(mem, home, shift, all, chain, dead, w) && saved == Lock(LinkAt(chain, 0, home, shift), true)
    ensures Walking(mem, home, shift, all, chain, dead, w.(f := 0, k := 0, r := 0, saved := saved))
  {
    hide NoDup, LinkAt;
  }

  /** The head is still as saved exactly if nothing has been pushed since. */
  lemma HeadMoved(mem: seq<Slot>, home: nat, shift: nat, all: seq<nat>, chain: seq<nat>, locked: bool, dead: set<nat>,
      w: Walk)
    requires Chained(mem, home, shift, chain, locked) && locked && Walking(mem, home, shift, all, chain, dead, w)
    ensures home < |mem| && mem[home].head == Lock(LinkAt(chain, 0, home, shift), true)
        && (mem[home].head == w.saved <==> w.f == 0)
  {
    if w.f > 0 {
      assert chain[0] != chain[w.f];
    }
  }
}
