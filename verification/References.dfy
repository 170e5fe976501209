/** The references held to the entries of a table, over any history of its operations. */
module References {
  import opened Slots

  /** What a slot holds. */
  datatype Item = Item(key: HashedKey, charge: nat, meta: Meta)

  /** What an operation did to the references held: took one to a slot's entry, gave one up, or neither. */
  datatype Deed = Gain(slot: nat) | Loss(slot: nat) | Neither

  function Change(d: Deed, x: nat): int {
    if d == Gain(x) then 1 else if d == Loss(x) then -1 else 0
  }

  ghost predicate SameEntry(now: Item, was: Item) {
    && now.key == was.key && now.charge == was.charge && now.meta.Shareable()
    && (now.meta.state.Visible? ==> was.meta.state.Visible?)
  }

  /** An entry that is still referred to stays, and exactly the reference named by the deed comes or goes. */
  ghost predicate Respects(was: seq<Item>, now: seq<Item>, d: Deed) {
    |now| == |was| && forall x | 0 <= x < |was| :: RespectsAt(was[x], now[x], Change(d, x))
  }

  ghost predicate RespectsAt(was: Item, now: Item, change: int) {
    var refs := was.meta.Refcount() + change;
    was.meta.Shareable() && refs > 0 ==> SameEntry(now, was) && now.meta.Refcount() == refs
  }

  /** The references gained and not given up again. */
  function Balance(deeds: seq<Deed>, x: nat): int {
    if deeds == [] then 0 else Balance(deeds[..|deeds| - 1], x) + Change(deeds[|deeds| - 1], x)
  }

  /** Through any history of lookups, inserts, releases, erasures, grows and eviction runs, an entry stays
      in its slot as long as references to it are held, and the slot counts exactly those. */
  lemma {:induction false} PinnedThroughout(history: seq<seq<Item>>, deeds: seq<Deed>, x: nat)
    requires |history| == |deeds| + 1 && x < |history[0]| && history[0][x].meta.Shareable()
    requires forall i | 0 <= i < |deeds| :: Respects(history[i], history[i + 1], deeds[i])
    requires forall i | 0 < i <= |deeds| :: history[0][x].meta.Refcount() + Balance(deeds[..i], x) > 0
    ensures var last := history[|deeds|];
      && x < |last| && SameEntry(last[x], history[0][x])
      && last[x].meta.Refcount() == history[0][x].meta.Refcount() + Balance(deeds, x)
  {
    if deeds != [] {
      var n := |deeds| - 1;
      var before := deeds[..n];
      forall i | 0 < i <= n ensures before[..i] == deeds[..i] {
      }
      PinnedThroughout(history[..n + 1], before, x);
      assert deeds[..n + 1] == deeds;
      assert RespectsAt(history[n][x], history[n + 1][x], Change(deeds[n], x));
    }
  }
}
