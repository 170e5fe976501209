/** The words of a HyperClockCache slot, as records of their bit fields. */
module Slots {

  /** Lossless 128-bit hash of a cache key; `lo` (hashed_key[1]) chooses the home. */
  datatype HashedKey = HashedKey(hi: nat, lo: nat)

  /** The occupied, shareable and visible flags, in their four legal combinations. */
  datatype State = Empty | Construction | Invisible | Visible

  datatype Meta = Meta(acquire: nat, release: nat, hit: bool, state: State) {
    predicate Shareable() { state.Visible? || state.Invisible? }
    function Refcount(): int { acquire - release }
  }

  const EMPTY_META := Meta(0, 0, false, Empty)

  const MAX_COUNTDOWN := 3

  /** What an eviction run has achieved, and met in vain, so far. */
  datatype EvictionData = EvictionData(freedCharge: nat, freedCount: nat, seenPinned: nat)

  /** Why an eviction run ended. */
  datatype Stop = Enough | ClockBound | EffortCap

  /** NextWithShift: an index into the table decorated with shift, end and locked marks. */
  datatype Link = Link(next: nat, shift: nat, end: bool, locked: bool) {
    predicate LockedNotEnd() { locked && !end }
  }

  function Make(next: nat, shift: nat): Link { Link(next, shift, false, false) }

  function MakeEnd(next: nat, shift: nat): Link { Link(next, shift, true, true) }

  const UNUSED := Make(0, 0)

  /** A slot of the Auto table: a chain head and, independently, an entry with its chain link. */
  datatype Slot = Slot(head: Link, chain: Link, key: HashedKey, charge: nat, meta: Meta)

  function WithHead(mem: seq<Slot>, i: nat, l: Link): seq<Slot>
    requires i < |mem|
  {
    mem[i := mem[i].(head := l)]
  }

  function WithChain(mem: seq<Slot>, i: nat, l: Link): seq<Slot>
    requires i < |mem|
  {
    mem[i := mem[i].(chain := l)]
  }

  function WithMeta(mem: seq<Slot>, i: nat, m: Meta): seq<Slot>
    requires i < |mem|
  {
    mem[i := mem[i].(meta := m)]
  }

  ghost predicate IsSuffix<T>(s: seq<T>, t: seq<T>) { |s| <= |t| && t[|t| - |s|..] == s }

  ghost predicate NoDup<T>(s: seq<T>) {
    forall i, j | 0 <= i < j < |s| :: s[i] != s[j]
  }

  ghost predicate Apart<T>(s: seq<T>, t: seq<T>) {
    forall x | x in s :: x !in t
  }

  lemma NoDupConcat<T>(s: seq<T>, t: seq<T>)
    requires NoDup(s) && NoDup(t) && Apart(s, t)
    ensures NoDup(s + t)
  {
    forall i, j | 0 <= i < j < |s + t| ensures (s + t)[i] != (s + t)[j] {
      if i < |s| <= j {
        assert s[i] in s && t[j - |s|] in t;
      }
    }
  }
}
