/** What a reader can find by following links from a chain head, at any moment of a split. */
module SplitReaders {
  import opened Slots
  import opened SplitModel

  /** Following links from `from` visits exactly `path` and then meets an end marker. The first
      `upgraded` links carry the new shift and the rest the old one; the end marker names the home
      that goes with its own shift. */
  ghost predicate Walks(c: Split, mem: seq<Slot>, from: Link, path: seq<nat>, upgraded: nat, home: nat)
    decreases |path|
  {
    && from.shift == (if upgraded > 0 then c.NewShift() else c.oldShift)
    && if path == [] then from.end && from.next == (if upgraded > 0 then home else c.oldHome)
       else
         && !from.end && from.next == path[0] && path[0] < |mem|
         && Walks(c, mem, mem[path[0]].chain, path[1..], if upgraded > 0 then upgraded - 1 else 0, home)
  }

  /** From the head of `home`, a reader meets every entry of `wanted`, none of them twice. */
  ghost predicate Finds(c: Split, mem: seq<Slot>, home: nat, upgraded: bool, wanted: set<nat>) {
    home < |mem| &&
    exists path: seq<nat>, n: nat ::
        Walks(c, mem, mem[home].head, path, n, home) && (n > 0 <==> upgraded) && NoDup(path)
                      && forall e | e in wanted :: e in path
  }

  /** No entry is lost: before the heads change, all entries are found from the old head; after
      that, each entry is found from the head its next hash bit selects. */
  ghost predicate Readable(c: Split, v: View, mem: seq<Slot>) {
    if v.published then
      forall b: bool :: Finds(c, mem, c.Home(b), true, set e | e in Present(v) && c.Bit(e) == b)
    else Finds(c, mem, c.oldHome, false, Present(v))
  }

  lemma {:induction false} OldWalk(c: Split, v: View, mem: seq<Slot>, i: nat)
    requires ViewOk(c, v) && Rendered(c, v, mem) && !v.published && i <= |v.base|
    ensures Walks(c, mem, OldLink(c, v.base, i), v.base[i..], 0, c.oldHome)
    decreases |v.base| - i
  {
    if i < |v.base| {
      OldWalk(c, v, mem, i + 1);
      assert v.base[i..][1..] == v.base[i + 1..];
      assert ChainIs(mem, v.base[i + 1 - 1], OldLink(c, v.base, i + 1));
    }
  }

  lemma LinkPastFrontier(c: Split, v: View, b: bool, i: nat)
    requires ViewOk(c, v) && v.published && v.frontier.At(b) < i < |v.base|
    ensures LinkAt(c, v, i) == OldLink(c, v.base, i + 1)
  {
    assert ChainOk(c, v, b) && ChainOk(c, v, !b);
  }

  /** Past its own frontier a chain shares the original links to the very end. */
  lemma {:induction false} SharedTail(c: Split, v: View, mem: seq<Slot>, b: bool, i: nat)
    requires ViewOk(c, v) && RenderedBase(c, v, mem) && v.published && v.frontier.At(b) < i <= |v.base|
    ensures Walks(c, mem, OldLink(c, v.base, i), v.base[i..], 0, c.Home(b))
    decreases |v.base| - i
  {
    if i < |v.base| {
      SharedTail(c, v, mem, b, i + 1);
      assert v.base[i..][1..] == v.base[i + 1..];
      assert ChainIs(mem, v.base[i], LinkAt(c, v, i));
      LinkPastFrontier(c, v, b, i);
    }
  }

  /** Entries of chain `b` from position `i` on, as far as the frontier, then everything. */
  ghost function TailPath(c: Split, v: View, b: bool, i: nat): seq<nat>
    requires i <= |v.base|
    decreases |v.base| - i
  {
    if i == |v.base| then []
    else if i < v.frontier.At(b) then [v.base[i]] + TailPath(c, v, b, NextOf(c, v.base, i + 1, b))
    else v.base[i..]
  }

  lemma {:induction false} TailPathHas(c: Split, v: View, b: bool, i: nat, k: nat)
    requires i <= k < |v.base| && c.Bit(v.base[k]) == b
    requires i < |v.base| ==> c.Bit(v.base[i]) == b
    ensures v.base[k] in TailPath(c, v, b, i)
    decreases |v.base| - i
  {
    if i < v.frontier.At(b) {
      var j := NextOf(c, v.base, i + 1, b);
      if k > i {
        TailPathHas(c, v, b, j, k);
      }
    } else {
      assert v.base[i..][k - i] == v.base[k];
    }
  }

  /** The positions a tail path visits increase strictly, so it never repeats an entry. */
  lemma {:induction false} TailPathNoDup(c: Split, v: View, b: bool, i: nat)
    requires i <= |v.base| && NoDup(v.base)
    ensures NoDup(TailPath(c, v, b, i))
    ensures forall x | x in TailPath(c, v, b, i) :: exists k :: i <= k < |v.base| && v.base[k] == x
    decreases |v.base| - i
  {
    if i < |v.base| && i < v.frontier.At(b) {
      var rest := TailPath(c, v, b, NextOf(c, v.base, i + 1, b));
      TailPathNoDup(c, v, b, NextOf(c, v.base, i + 1, b));
      assert v.base[i] !in rest;
      NoDupConcat([v.base[i]], rest);
    }
  }

  /** Number of new-shift links from position `i` of chain `b` to its end. */
  ghost function UpgradedFrom(c: Split, v: View, b: bool, i: nat): nat
    requires i <= |v.base|
    decreases |v.base| - i
  {
    if i == |v.base| then 1
    else if i < v.frontier.At(b) then 1 + UpgradedFrom(c, v, b, NextOf(c, v.base, i + 1, b))
    else 1
  }

  lemma {:induction false} BaseWalk(c: Split, v: View, mem: seq<Slot>, b: bool, i: nat)
    requires ViewOk(c, v) && RenderedBase(c, v, mem) && v.published && i <= |v.base|
    requires i < |v.base| ==> c.Bit(v.base[i]) == b
    requires i <= v.frontier.At(b)
    ensures Walks(c, mem, NewLink(c, v.base, i, b), TailPath(c, v, b, i), UpgradedFrom(c, v, b, i), c.Home(b))
    decreases |v.base| - i
  {
    assert ChainOk(c, v, b);
    if i < |v.base| {
      assert ChainIs(mem, v.base[i], LinkAt(c, v, i));
      var path := TailPath(c, v, b, i);
      if i < v.frontier.At(b) {
        var j := NextOf(c, v.base, i + 1, b);
        BaseWalk(c, v, mem, b, j);
        assert path[1..] == TailPath(c, v, b, j);
      } else {
        SharedTail(c, v, mem, b, i + 1);
        assert path[1..] == v.base[i + 1..];
      }
    }
  }

  lemma {:induction false} PreWalk(c: Split, v: View, mem: seq<Slot>, b: bool, j: nat, tail: seq<nat>, n: nat)
    requires RenderedPre(c, v, mem, b) && j <= |v.pre.At(b)|
    requires n > 0 && Walks(c, mem, EntryLink(c, v, b), tail, n, c.Home(b))
    ensures Walks(c, mem, PreLink(c, v, b, j), v.pre.At(b)[j..] + tail, |v.pre.At(b)| - j + n, c.Home(b))
    decreases |v.pre.At(b)| - j
  {
    var path := v.pre.At(b)[j..] + tail;
    if j == |v.pre.At(b)| {
      assert path == tail;
    } else {
      assert ChainIs(mem, v.pre.At(b)[j + 1 - 1], PreLink(c, v, b, j + 1));
      PreWalk(c, v, mem, b, j + 1, tail, n);
      assert path[1..] == v.pre.At(b)[j + 1..] + tail;
    }
  }

  /** The chain a reader follows from the head of chain `b`. */
  ghost function ReaderPath(c: Split, v: View, b: bool): seq<nat> {
    v.pre.At(b) + TailPath(c, v, b, NextOf(c, v.base, 0, b))
  }

  lemma HeadWalk(c: Split, v: View, mem: seq<Slot>, b: bool)
    requires ViewOk(c, v) && RenderedBase(c, v, mem) && RenderedPre(c, v, mem, b) && v.published
    ensures Walks(c, mem, mem[c.Home(b)].head, ReaderPath(c, v, b),
                  |v.pre.At(b)| + UpgradedFrom(c, v, b, NextOf(c, v.base, 0, b)), c.Home(b))
  {
    assert ChainOk(c, v, b);
    var i := NextOf(c, v.base, 0, b);
    BaseWalk(c, v, mem, b, i);
    PreWalk(c, v, mem, b, 0, TailPath(c, v, b, i), UpgradedFrom(c, v, b, i));
    assert v.pre.At(b)[0..] + TailPath(c, v, b, i) == ReaderPath(c, v, b);
    assert HeadIs(mem, c.Home(b), Locked(PreLink(c, v, b, 0), v.held.At(b)));
    LockInvisible(c, mem, PreLink(c, v, b, 0), v.held.At(b), ReaderPath(c, v, b),
                  |v.pre.At(b)| + UpgradedFrom(c, v, b, i), c.Home(b));
  }

  lemma ReaderPathNoDup(c: Split, v: View, b: bool)
    requires ViewOk(c, v) && v.published
    ensures NoDup(ReaderPath(c, v, b))
  {
    assert ChainOk(c, v, b);
    var i := NextOf(c, v.base, 0, b);
    TailPathNoDup(c, v, b, i);
    forall x | x in v.pre.At(b) ensures x !in TailPath(c, v, b, i) {
      assert x !in v.base;
    }
    NoDupConcat(v.pre.At(b), TailPath(c, v, b, i));
  }

  lemma ReaderPathHas(c: Split, v: View, b: bool, e: nat)
    requires ViewOk(c, v) && v.published && e in Present(v) && c.Bit(e) == b
    ensures e in ReaderPath(c, v, b)
  {
    assert ChainOk(c, v, !b);
    if e in v.base {
      var k :| 0 <= k < |v.base| && v.base[k] == e;
      TailPathHas(c, v, b, NextOf(c, v.base, 0, b), k);
    } else {
      assert e !in v.pre.At(!b);
    }
  }

  /** The locked mark on a head means nothing to a reader. */
  lemma LockInvisible(c: Split, mem: seq<Slot>, l: Link, held: bool, path: seq<nat>, upgraded: nat, home: nat)
    requires Walks(c, mem, l, path, upgraded, home)
    ensures Walks(c, mem, Locked(l, held), path, upgraded, home)
  {
  }

  lemma FoundFrom(c: Split, v: View, mem: seq<Slot>, b: bool)
    requires ViewOk(c, v) && RenderedBase(c, v, mem) && RenderedPre(c, v, mem, b) && v.published
    ensures Finds(c, mem, c.Home(b), true, set e | e in Present(v) && c.Bit(e) == b)
  {
    HeadWalk(c, v, mem, b);
    ReaderPathNoDup(c, v, b);
    forall e | e in Present(v) && c.Bit(e) == b ensures e in ReaderPath(c, v, b) {
      ReaderPathHas(c, v, b, e);
    }
  }

  /** Whatever the view, memory that agrees with it loses no entry. */
  lemma NothingLost(c: Split, v: View, mem: seq<Slot>)
    requires ViewOk(c, v) && Rendered(c, v, mem)
    ensures Readable(c, v, mem)
  {
    if v.published {
      forall b: bool ensures Finds(c, mem, c.Home(b), true, set e | e in Present(v) && c.Bit(e) == b) {
        FoundFrom(c, v, mem, b);
      }
    } else {
      OldWalk(c, v, mem, 0);
      assert v.base[0..] == v.base;
      LockInvisible(c, mem, OldLink(c, v.base, 0), v.held.zero, v.base, 0, c.oldHome);
      assert forall e | e in Present(v) :: e in v.base by {
        assert v.pre == Pair([], []);
      }
    }
  }
}
