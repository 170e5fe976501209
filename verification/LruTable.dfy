/** LRUHandle and LRUHandleTable: a hash table of handles chained through next_hash. */
module LruTable {
  import opened Arith
  import opened Slots

  type Hash = h: nat | h < 0x1_0000_0000

  datatype Key = Key(hash: Hash, text: string)

  datatype Priority = High | Low | Bottom

  class Handle {
    const key: Key
    var nextHash: Handle?
    var next: Handle?
    var prev: Handle?
    const charge: nat
    var refs: nat
    var priority: Priority
    var standalone: bool
    var inCache: bool
    var hit: bool
    var inHigh: bool
    var inLow: bool

    constructor (key: Key, charge: nat)
      ensures this.key == key && this.charge == charge && refs == 0 && next == prev == null
      ensures !standalone && !inCache && !hit && !inHigh && !inLow
    {
      this.key, this.charge, refs := key, charge, 0;
      nextHash, next, prev, priority := null, null, null, Low;
      standalone, inCache, hit, inHigh, inLow := false, false, false, false, false;
    }
  }

  /** The bucket is chosen by the upper-most hash bits. */
  function Bucket(bits: nat, key: Key): (b: nat)
    requires bits <= 32
  {
    Div(key.hash, Pow2(32 - bits))
  }

  function Div(x: nat, d: nat): nat
    requires d > 0
  {
    x / d
  }

  /** Buckets go by the upper bits of the hash: with twice as many, each one is divided in two neighbours, and
      with 2^32 of them every hash has its own. */
  lemma BucketSplits(bits: nat, key: Key)
    requires bits < 32
    ensures Bucket(bits + 1, key) / 2 == Bucket(bits, key) && Bucket(32, key) == key.hash
  {
    var d := Pow2(31 - bits);
    assert Pow2(32 - bits) == 2 * d && Pow2(0) == 1;
    var q, r := key.hash / (2 * d), key.hash % (2 * d);
    assert key.hash == q * (2 * d) + r && q * (2 * d) == (2 * q) * d;
    if r < d {
      ModUnique(key.hash, d, 2 * q, r);
    } else {
      assert (2 * q + 1) * d == (2 * q) * d + d;
      ModUnique(key.hash, d, 2 * q + 1, r - d);
    }
  }

  lemma BucketInRange(bits: nat, key: Key)
    requires bits <= 32
    ensures Bucket(bits, key) < Pow2(bits)
  {
    Pow2Adds(bits, 32 - bits);
    TwoTo32();
    DivBelow(key.hash, Pow2(32 - bits), Pow2(bits));
  }

  lemma TwoTo32()
    ensures Pow2(32) == 0x1_0000_0000
  {
    assert Pow2(8) == 256;
    Pow2Adds(8, 8);
    Pow2Adds(16, 16);
  }

  lemma DivBelow(x: nat, d: nat, n: nat)
    requires d > 0 && x < n * d
    ensures Div(x, d) < n
  {
    assert x == (x / d) * d + x % d;
    if n <= x / d {
      MulMono(n, x / d, d);
    }
  }

  lemma MulMono(a: nat, b: nat, d: nat)
    requires a <= b
    ensures a * d <= b * d
  {
  }

  // ---------------------------------------------------------------------------------------
  // Chains on values; `links` mirrors the next_hash fields

  function At(chain: seq<Handle>, i: nat): Handle? { if i < |chain| then chain[i] else null }

  ghost predicate Linked(head: Handle?, chain: seq<Handle>, links: map<Handle, Handle?>) {
    && head == At(chain, 0)
    && forall i | 0 <= i < |chain| :: chain[i] in links && links[chain[i]] == At(chain, i + 1)
  }

  /** A bucket's chain holds, each once, handles of the table that belong in that bucket. */
  ghost predicate Placed(bits: nat, b: nat, chain: seq<Handle>, contents: map<Key, Handle>)
    requires bits <= 32
  {
    && NoDup(chain)
    && forall i | 0 <= i < |chain| ::
         && Bucket(bits, chain[i].key) == b
         && chain[i].key in contents && contents[chain[i].key] == chain[i]
  }

  ghost predicate Reachable(bits: nat, k: Key, chains: seq<seq<Handle>>, contents: map<Key, Handle>)
    requires bits <= 32 && k in contents
  {
    contents[k].key == k && Bucket(bits, k) < |chains| && contents[k] in chains[Bucket(bits, k)]
  }

  /** The chains are exactly the map's handles, each in its own bucket. */
  ghost predicate TableOk(bits: nat, heads: seq<Handle?>, chains: seq<seq<Handle>>, links: map<Handle, Handle?>,
      contents: map<Key, Handle>) {
    && bits <= 32 && |heads| == |chains| == Pow2(bits)
    && (forall b | 0 <= b < |chains| :: Linked(heads[b], chains[b], links) && Placed(bits, b, chains[b], contents))
    && (forall k | k in contents :: Reachable(bits, k, chains, contents))
  }

  lemma OtherChain(bits: nat, b: nat, c: nat, head: Handle?, chain: seq<Handle>, links: map<Handle, Handle?>,
      contents: map<Key, Handle>, links': map<Handle, Handle?>, contents': map<Key, Handle>)
    requires bits <= 32 && b != c && Linked(head, chain, links) && Placed(bits, c, chain, contents)
    requires forall h | h in links && Bucket(bits, h.key) != b :: h in links' && links'[h] == links[h]
    requires forall k | k in contents && Bucket(bits, k) != b :: k in contents' && contents'[k] == contents[k]
    ensures Linked(head, chain, links') && Placed(bits, c, chain, contents')
  {
    hide Bucket, Pow2;
  }

  /** A change confined to one bucket. */
  lemma BucketChanged(bits: nat, heads: seq<Handle?>, chains: seq<seq<Handle>>, links: map<Handle, Handle?>,
      contents: map<Key, Handle>, b: nat, head': Handle?, chain': seq<Handle>, links': map<Handle, Handle?>,
      contents': map<Key, Handle>)
    requires TableOk(bits, heads, chains, links, contents) && b < |chains|
    requires Linked(head', chain', links') && Placed(bits, b, chain', contents')
    requires forall h | h in links && Bucket(bits, h.key) != b :: h in links' && links'[h] == links[h]
    requires forall k | k in contents && Bucket(bits, k) != b :: k in contents' && contents'[k] == contents[k]
    requires forall k | k in contents' ::
        if Bucket(bits, k) != b then k in contents else contents'[k].key == k && contents'[k] in chain'
    ensures TableOk(bits, heads[b := head'], chains[b := chain'], links', contents')
  {
    hide Bucket, Pow2, Linked, Placed;
    forall c | 0 <= c < |chains| && c != b ensures Linked(heads[c], chains[c], links')
        && Placed(bits, c, chains[c], contents') {
      OtherChain(bits, b, c, heads[c], chains[c], links, contents, links', contents');
    }
    forall k | k in contents' ensures Reachable(bits, k, chains[b := chain'], contents') {
      if Bucket(bits, k) != b {
        assert Reachable(bits, k, chains, contents);
      }
    }
  }

  /** Where a search of a chain for a key ends: at the handle with that key, or past the end. */
  ghost predicate Found(chain: seq<Handle>, key: Key, i: nat) {
    && i <= |chain| && (forall j | 0 <= j < i :: chain[j].key != key)
    && (i < |chain| ==> chain[i].key == key)
  }

  /** A search decides whether the map has the key. */
  lemma SearchDecides(bits: nat, heads: seq<Handle?>, chains: seq<seq<Handle>>, links: map<Handle, Handle?>,
      contents: map<Key, Handle>, key: Key, i: nat)
    requires TableOk(bits, heads, chains, links, contents) && Bucket(bits, key) < |chains|
    requires Found(chains[Bucket(bits, key)], key, i)
    ensures i <= |chains[Bucket(bits, key)]|
    ensures key in contents <==> i < |chains[Bucket(bits, key)]|
    ensures key in contents ==> contents[key] == chains[Bucket(bits, key)][i]
  {
    hide Bucket, Pow2;
    var b := Bucket(bits, key);
    assert Placed(bits, b, chains[b], contents);
    if key in contents {
      assert Reachable(bits, key, chains, contents);
    }
  }

  /** Writing handle `x` at link `i` of a chain. */
  function Relinked(head: Handle?, chain: seq<Handle>, links: map<Handle, Handle?>, i: nat,
      x: Handle?): (r: (Handle?, map<Handle, Handle?>))
    requires i <= |chain|
  {
    if i == 0 then (x, links) else (head, links[chain[i - 1] := x])
  }

  lemma RelinkedKeys(head: Handle?, chain: seq<Handle>, links: map<Handle, Handle?>, i: nat, x: Handle?,
      gone: set<Handle>)
    requires i <= |chain| && forall j | 0 <= j < |chain| :: chain[j] in links
    ensures (Relinked(head, chain, links, i, x).1 - gone).Keys == links.Keys - gone
  {
  }

  /** `h` takes position `i`, in place of whatever was there. */
  function PutAt(chain: seq<Handle>, i: nat, h: Handle): seq<Handle>
    requires i <= |chain|
  {
    if i < |chain| then chain[i := h] else chain + [h]
  }

  lemma PutLinks(head: Handle?, chain: seq<Handle>, links: map<Handle, Handle?>, i: nat, h: Handle)
    requires Linked(head, chain, links) && NoDup(chain) && h !in chain && i <= |chain|
    ensures var r := Relinked(head, chain, links[h := At(chain, i + 1)], i, h);
      Linked(r.0, PutAt(chain, i, h), r.1) && NoDup(PutAt(chain, i, h))
  {
  }

  lemma DropLinks(head: Handle?, chain: seq<Handle>, links: map<Handle, Handle?>, i: nat)
    requires Linked(head, chain, links) && NoDup(chain) && i < |chain|
    ensures var r := Relinked(head, chain, links, i, At(chain, i + 1));
      Linked(r.0, chain[..i] + chain[i + 1..], r.1) && NoDup(chain[..i] + chain[i + 1..])
  {
    var r, cut := Relinked(head, chain, links, i, At(chain, i + 1)), chain[..i] + chain[i + 1..];
    forall j | 0 <= j < |cut| ensures cut[j] in r.1 && r.1[cut[j]] == At(cut, j + 1) {
      var was := if j < i then j else j + 1;
      assert cut[j] == chain[was] && links[chain[was]] == At(chain, was + 1);
    }
  }

  /** The whole table on values. */
  ghost predicate Good(bits: nat, heads: seq<Handle?>, chains: seq<seq<Handle>>, links: map<Handle, Handle?>,
      contents: map<Key, Handle>, elems: nat) {
    TableOk(bits, heads, chains, links, contents) && links.Keys == contents.Values && elems == |contents|
  }

  method NewBuckets(n: nat) returns (a: array<Handle?>)
    ensures fresh(a) && a.Length == n && forall i | 0 <= i < n :: a[i] == null
  {
    a := new Handle?[n](_ => null);
  }

  class HandleTable {
    var bits: nat
    const maxBits: nat
    var list: array<Handle?>
    var elems: nat
    ghost var chains: seq<seq<Handle>>
    ghost var links: map<Handle, Handle?>
    ghost var contents: map<Key, Handle>

    ghost predicate Mirrored()
      reads `links, links.Keys`nextHash
    {
      forall h | h in links :: h.nextHash == links[h]
    }

    ghost predicate Valid()
      reads this, list, links.Keys`nextHash
    {
      Mirrored() && Good(bits, list[..], chains, links, contents, elems)
    }

    constructor (maxBits: nat)
      ensures Valid() && contents == map[] && fresh(list)
    {
      this.maxBits := maxBits;
      bits, elems := 4, 0;
      list := new Handle?[16](_ => null);
      chains, links, contents := seq(16, _ => []), map[], map[];
      new;
      assert Pow2(4) == 16;
    }

    /** Walks the key's chain to the link that refers to its handle, or to the last, null link. */
    method FindPointer(key: Key) returns (b: nat, prev: Handle?, cur: Handle?, ghost i: nat)
      requires Valid()
      ensures b == Bucket(bits, key) < |chains| && i <= |chains[b]| && Found(chains[b], key, i)
      ensures prev == (if i == 0 then null else chains[b][i - 1]) && cur == At(chains[b], i)
    {
      hide Bucket, Pow2, TableOk;
      TableSizes(bits, list[..], chains, links, contents);
      BucketInRange(bits, key);
      b := Bucket(bits, key);
      ChainAt(bits, list[..], chains, links, contents, b);
      prev, cur, i := null, list[b], 0;
      while cur != null && (cur.key.hash != key.hash || cur.key.text != key.text)
        invariant i <= |chains[b]| && cur == At(chains[b], i)
        invariant prev == if i == 0 then null else chains[b][i - 1]
        invariant forall j | 0 <= j < i :: chains[b][j].key != key
        decreases |chains[b]| - i
      {
        prev, cur, i := cur, cur.nextHash, i + 1;
      }
    }

    method Lookup(key: Key) returns (r: Handle?)
      requires Valid()
      ensures r == if key in contents then contents[key] else null
    {
      hide Bucket, Pow2, TableOk;
      ghost var i;
      var b, prev;
      b, prev, r, i := FindPointer(key);
      SearchDecides(bits, list[..], chains, links, contents, key, i);
    }

    /** Stores `x` in the link found by FindPointer; the handles `gone` leave the table. */
    method SetLink(b: nat, prev: Handle?, x: Handle?, ghost i: nat, ghost gone: set<Handle>)
      requires b < list.Length == |chains| && i <= |chains[b]| && prev == (if i == 0 then null else chains[b][i - 1])
      requires Mirrored() && forall j | 0 <= j < |chains[b]| :: chains[b][j] in links
      modifies list, `links, links.Keys`nextHash
      ensures Mirrored() && links == Relinked(old(list[b]), chains[b], old(links), i, x).1 - gone
      ensures list[..] == old(list[..])[b := Relinked(old(list[b]), chains[b], old(links), i, x).0]
    {
      if prev == null {
        list[b] := x;
      } else {
        prev.nextHash := x;
        links := links[prev := x];
      }
      links := links - gone;
    }

    /** `h` links to what `other` links to. */
    method CopyNext(h: Handle, other: Handle?)
      requires Mirrored() && (other == null || other in links)
      modifies `links, h`nextHash
      ensures Mirrored() && links == old(links)[h := if other == null then null else old(links)[other]]
    {
      h.nextHash := if other == null then null else other.nextHash;
      links := links[h := h.nextHash];
    }

    /** Adds the handle, and returns the one with the same key that it replaces, if any. */
    method Insert(h: Handle) returns (replaced: Handle?)
      requires Valid() && h !in contents.Values
      modifies this, list, links.Keys`nextHash, h`nextHash
      ensures Valid() && contents == old(contents)[h.key := h] && (list == old(list) || fresh(list))
      ensures replaced == if h.key in old(contents) then old(contents)[h.key] else null
    {
      hide Bucket, Pow2, TableOk, Found, Good, Mirrored;
      ghost var i;
      var b, prev;
      b, prev, replaced, i := FindPointer(h.key);
      GoodTable(bits, list[..], chains, links, contents, elems);
      InsertGood(bits, list[..], chains, links, contents, elems, h, i);
      CopyNext(h, replaced);
      SetLink(b, prev, h, i, Replaced(chains[b], i));
      chains := chains[b := PutAt(chains[b], i, h)];
      contents := contents[h.key := h];
      if replaced == null {
        elems := elems + 1;
        if Div(elems, Pow2(bits)) > 0 {
          Resize();
        }
      }
    }

    /** Takes the handle with the key out of the table, if there is one. */
    method Remove(key: Key) returns (r: Handle?)
      requires Valid()
      modifies `elems, `chains, `links, `contents, list, links.Keys`nextHash
      ensures Valid() && contents == old(contents) - {key}
      ensures r == if key in old(contents) then old(contents)[key] else null
    {
      hide Bucket, Pow2, TableOk, Found, Good;
      ghost var i;
      var b, prev;
      b, prev, r, i := FindPointer(key);
      GoodTable(bits, list[..], chains, links, contents, elems);
      if r != null {
        RemoveGood(bits, list[..], chains, links, contents, elems, key, i);
        SetLink(b, prev, r.nextHash, i, {r});
        chains := chains[b := chains[b][..i] + chains[b][i + 1..]];
        contents := contents - {key};
        elems := elems - 1;
      } else {
        SearchDecides(bits, list[..], chains, links, contents, key, i);
        assert contents - {key} == contents;
      }
    }

    method SetNext(h: Handle, x: Handle?)
      requires Mirrored()
      modifies `links, h`nextHash
      ensures Mirrored() && links == old(links)[h := x]
    {
      h.nextHash := x;
      links := links[h := x];
    }

    /** Resize's inner loop: pushes the handles of one bucket onto their new chains. */
    method MoveBucket(i: nat, newList: array<Handle?>, ghost was: map<Handle, Handle?>,
        ghost newChains: seq<seq<Handle>>, ghost done: set<Handle>)
      returns (ghost newChains': seq<seq<Handle>>, ghost done': set<Handle>)
      requires i < list.Length && newList != list && TableOk(bits, list[..], chains, was, contents) && Mirrored()
      requires Moving(bits, was, links, contents, newList[..], newChains, done) && Progress(chains, done, i, 0)
      modifies newList, `links, was.Keys`nextHash
      ensures Mirrored() && Moving(bits, was, links, contents, newList[..], newChains', done')
          && Progress(chains, done', i + 1, 0)
    {
      hide Bucket, Pow2, TableOk, Mirrored, Moving, Progress;
      newChains', done' := newChains, done;
      HeadOf(bits, list[..], chains, was, contents, i);
      var h := list[i];
      ghost var j := 0;
      while h != null
        invariant Mirrored() && j <= |chains[i]| && h == At(chains[i], j)
        invariant Moving(bits, was, links, contents, newList[..], newChains', done') && Progress(chains, done', i, j)
        decreases |chains[i]| - j
      {
        ToMove(bits, list[..], chains, was, links, contents, newList[..], newChains', done', i, j);
        MoveOne(bits, was, links, contents, newList[..], newChains', done', h);
        ProgressOne(bits, list[..], chains, was, contents, done', i, j);
        var next := NextOf(h);
        var c := Bucket(bits + 1, h.key);
        ghost var newHeads := newList[..][c := h];
        SetNext(h, newList[c]);
        newList[c] := h;
        assert newList[..] == newHeads;
        newChains', done' := newChains'[c := [h] + newChains'[c]], done' + {h};
        h, j := next, j + 1;
      }
      ProgressNext(chains, done', i, j);
    }

    /** Resize's outer loop, over the old buckets. */
    method MoveAll(newList: array<Handle?>, ghost was: map<Handle, Handle?>, ghost newChains: seq<seq<Handle>>)
      returns (ghost newChains': seq<seq<Handle>>, ghost done: set<Handle>)
      requires newList != list && TableOk(bits, list[..], chains, was, contents) && Mirrored()
      requires Moving(bits, was, links, contents, newList[..], newChains, {}) && Progress(chains, {}, 0, 0)
      modifies newList, `links, was.Keys`nextHash
      ensures Mirrored() && Moving(bits, was, links, contents, newList[..], newChains', done)
          && Progress(chains, done, list.Length, 0)
    {
      hide Bucket, Pow2, TableOk, Mirrored, Moving, Progress;
      newChains', done := newChains, {};
      for i := 0 to list.Length
        invariant Mirrored() && Moving(bits, was, links, contents, newList[..], newChains', done)
            && Progress(chains, done, i, 0)
      {
        newChains', done := MoveBucket(i, newList, was, newChains', done);
      }
    }

    /** Doubles the table, unless it has reached its limit, by pushing every handle onto its new chain. */
    method Resize()
      requires Valid()
      modifies `bits, `list, `chains, `links, links.Keys`nextHash
      ensures Valid() && (list == old(list) || fresh(list))
      ensures bits == if old(bits) >= maxBits || old(bits) >= 31 then old(bits) else old(bits) + 1
    {
      hide Bucket, Pow2, TableOk, Good, Mirrored, Moving, Progress, NoChains;
      if bits >= maxBits || bits >= 31 {
        return;
      }
      GoodTable(bits, list[..], chains, links, contents, elems);
      var newList := NewBuckets(Pow2(bits + 1));
      ghost var was := links;
      MovingStarts(bits, list[..], chains, links, contents, newList[..]);
      ghost var newChains, done := MoveAll(newList, was, NoChains(Pow2(bits + 1)));
      MovingEnds(bits, list[..], chains, was, links, contents, newList[..], newChains, done, elems);
      list, bits, chains := newList, bits + 1, newChains;
    }

    method NextOf(h: Handle) returns (next: Handle?)
      requires Mirrored() && h in links
      ensures next == links[h]
    {
      next := h.nextHash;
    }
  }

  // ---------------------------------------------------------------------------------------
  // Resizing on values

  /** The handles in `done` are on the new chains; the links of the others are as they were. */
  ghost predicate Moving(bits: nat, was: map<Handle, Handle?>, links: map<Handle, Handle?>, contents: map<Key, Handle>,
      newHeads: seq<Handle?>, newChains: seq<seq<Handle>>, done: set<Handle>) {
    && bits <= 31 && |newHeads| == |newChains| == Pow2(bits + 1)
    && (forall c | 0 <= c < |newChains| ::
        Linked(newHeads[c], newChains[c], links) && Placed(bits + 1, c, newChains[c], contents))
    && (forall c | 0 <= c < |newChains| :: forall p | 0 <= p < |newChains[c]| :: newChains[c][p] in done)
    && (forall k | k in contents ::
        contents[k].key == k && (contents[k] in done ==> Reachable(bits + 1, k, newChains, contents)))
    && links.Keys == was.Keys
    && (forall h | h in was && h !in done :: links[h] == was[h])
  }

  /** Exactly the handles before position `j` of bucket `i` have been moved. */
  ghost predicate Progress(chains: seq<seq<Handle>>, done: set<Handle>, i: nat, j: nat) {
    forall b, p | 0 <= b < |chains| && 0 <= p < |chains[b]| :: chains[b][p] in done <==> b < i || (b == i && p < j)
  }

  ghost function NoChains(n: nat): (c: seq<seq<Handle>>) {
    seq(n, _ => [])
  }

  lemma MovingStarts(bits: nat, heads: seq<Handle?>, chains: seq<seq<Handle>>, links: map<Handle, Handle?>,
      contents: map<Key, Handle>, newHeads: seq<Handle?>)
    requires bits <= 31 && |newHeads| == Pow2(bits + 1) && TableOk(bits, heads, chains, links, contents)
    requires forall c | 0 <= c < |newHeads| :: newHeads[c] == null
    ensures Moving(bits, links, links, contents, newHeads, NoChains(Pow2(bits + 1)), {}) && Progress(chains, {}, 0, 0)
  {
    TableSizes(bits, heads, chains, links, contents);
    hide Bucket, Pow2, TableOk;
  }

  lemma HeadOf(bits: nat, heads: seq<Handle?>, chains: seq<seq<Handle>>, links: map<Handle, Handle?>,
      contents: map<Key, Handle>, b: nat)
    requires TableOk(bits, heads, chains, links, contents) && b < |heads|
    ensures |heads| == |chains| && heads[b] == At(chains[b], 0)
  {
    hide Bucket, Pow2;
    ChainAt(bits, heads, chains, links, contents, b);
  }

  /** The next handle to move belongs to the table, has not been moved, and still has its old link. */
  lemma ToMove(bits: nat, heads: seq<Handle?>, chains: seq<seq<Handle>>, was: map<Handle, Handle?>, links: map<Handle,
      Handle?>, contents: map<Key, Handle>, newHeads: seq<Handle?>, newChains: seq<seq<Handle>>, done: set<Handle>,
      i: nat, j: nat)
    requires TableOk(bits, heads, chains, was, contents) && i < |chains| && j < |chains[i]|
    requires Moving(bits, was, links, contents, newHeads, newChains, done) && Progress(chains, done, i, j)
    ensures var h := chains[i][j];
      && h.key in contents && contents[h.key] == h && h !in done
      && h in links && h in was && links[h] == At(chains[i], j + 1)
      && bits <= 31 && |newHeads| == |newChains| && Bucket(bits + 1, h.key) < |newHeads|
  {
    hide Bucket, Pow2;
    ChainAt(bits, heads, chains, was, contents, i);
    BucketInRange(bits + 1, chains[i][j].key);
  }

  /** Pushing a handle onto its new chain. */
  lemma MoveOne(bits: nat, was: map<Handle, Handle?>, links: map<Handle, Handle?>, contents: map<Key, Handle>,
      newHeads: seq<Handle?>, newChains: seq<seq<Handle>>, done: set<Handle>, h: Handle)
    requires Moving(bits, was, links, contents, newHeads, newChains, done)
    requires h.key in contents && contents[h.key] == h && h !in done && h in was && Bucket(bits + 1, h.key) < |newHeads|
    ensures var c := Bucket(bits + 1, h.key);
      Moving(bits, was, links[h := newHeads[c]], contents, newHeads[c := h], newChains[c := [h] + newChains[c]],
          done + {h})
  {
    hide Bucket, Pow2, Linked, Placed;
    var c := Bucket(bits + 1, h.key);
    var links', chains' := links[h := newHeads[c]], newChains[c := [h] + newChains[c]];
    forall d | 0 <= d < |newChains|
      ensures Linked(newHeads[c := h][d], chains'[d], links') && Placed(bits + 1, d, chains'[d], contents)
    {
      assert h !in newChains[d];
      LinkedElsewhere(newHeads[d], newChains[d], links, h, newHeads[c]);
      if d == c {
        PushLinks(newHeads[c], newChains[c], links, h);
        PushPlaced(bits + 1, c, newChains[c], contents, h);
      }
    }
    forall k | k in contents && contents[k] in done + {h} ensures Reachable(bits + 1, k, chains', contents) {
      if contents[k] in done {
        assert Reachable(bits + 1, k, newChains, contents);
        StillThere(newChains[c], h, contents[k]);
      } else {
        assert chains'[c][0] == h;
      }
    }
  }

  lemma StillThere(chain: seq<Handle>, h: Handle, x: Handle)
    ensures x in chain ==> x in [h] + chain
  {
  }

  lemma LinkedElsewhere(head: Handle?, chain: seq<Handle>, links: map<Handle, Handle?>, h: Handle, x: Handle?)
    requires Linked(head, chain, links) && h !in chain
    ensures Linked(head, chain, links[h := x])
  {
  }

  lemma PushLinks(head: Handle?, chain: seq<Handle>, links: map<Handle, Handle?>, h: Handle)
    requires Linked(head, chain, links) && h !in chain
    ensures Linked(h, [h] + chain, links[h := head])
  {
  }

  lemma PushPlaced(bits: nat, b: nat, chain: seq<Handle>, contents: map<Key, Handle>, h: Handle)
    requires bits <= 32 && Placed(bits, b, chain, contents) && h !in chain
    requires Bucket(bits, h.key) == b && h.key in contents && contents[h.key] == h
    ensures Placed(bits, b, [h] + chain, contents)
  {
  }

  lemma ProgressOne(bits: nat, heads: seq<Handle?>, chains: seq<seq<Handle>>, was: map<Handle, Handle?>,
      contents: map<Key, Handle>, done: set<Handle>, i: nat, j: nat)
    requires TableOk(bits, heads, chains, was, contents) && i < |chains| && j < |chains[i]|
        && Progress(chains, done, i, j)
    ensures Progress(chains, done + {chains[i][j]}, i, j + 1)
  {
    hide Bucket, Pow2;
    forall b, p | 0 <= b < |chains| && 0 <= p < |chains[b]| && chains[b][p] == chains[i][j] ensures b == i && p == j {
      ChainAt(bits, heads, chains, was, contents, i);
      ChainAt(bits, heads, chains, was, contents, b);
    }
  }

  lemma ProgressNext(chains: seq<seq<Handle>>, done: set<Handle>, i: nat, j: nat)
    requires Progress(chains, done, i, j) && i < |chains| && j == |chains[i]|
    ensures Progress(chains, done, i + 1, 0)
  {
  }

  /** When every bucket is done, the new chains are the table. */
  lemma MovingEnds(bits: nat, heads: seq<Handle?>, chains: seq<seq<Handle>>, was: map<Handle, Handle?>,
      links: map<Handle, Handle?>, contents: map<Key, Handle>, newHeads: seq<Handle?>, newChains: seq<seq<Handle>>,
      done: set<Handle>, elems: nat)
    requires Good(bits, heads, chains, was, contents, elems)
    requires Moving(bits, was, links, contents, newHeads, newChains, done) && Progress(chains, done, |chains|, 0)
    ensures Good(bits + 1, newHeads, newChains, links, contents, elems)
  {
    hide Bucket, Pow2, Linked, Placed;
    forall k | k in contents ensures Reachable(bits + 1, k, newChains, contents) {
      assert Reachable(bits, k, chains, contents);
      var b := Bucket(bits, k);
      var p :| 0 <= p < |chains[b]| && chains[b][p] == contents[k];
    }
  }

  lemma LinkedMinus(head: Handle?, chain: seq<Handle>, links: map<Handle, Handle?>, gone: set<Handle>)
    requires Linked(head, chain, links) && forall i | 0 <= i < |chain| :: chain[i] !in gone
    ensures Linked(head, chain, links - gone)
  {
  }

  /** The handle that a search for `h`'s key ended at, if any. */
  ghost function Replaced(chain: seq<Handle>, i: nat): set<Handle> { if i < |chain| then {chain[i]} else {} }

  lemma PutPlaced(bits: nat, b: nat, chain: seq<Handle>, contents: map<Key, Handle>, h: Handle, i: nat)
    requires bits <= 32 && Placed(bits, b, chain, contents) && Bucket(bits, h.key) == b && Found(chain, h.key, i)
        && h !in contents.Values
    requires h.key in contents <==> i < |chain|
    ensures h !in chain && NoDup(PutAt(chain, i, h))
    ensures Placed(bits, b, PutAt(chain, i, h), contents[h.key := h])
    ensures forall j | 0 <= j < |PutAt(chain, i, h)| :: PutAt(chain, i, h)[j] !in Replaced(chain, i)
  {
    hide Bucket, Pow2;
    var put := PutAt(chain, i, h);
    assert forall j | 0 <= j < |chain| :: chain[j] in contents.Values;
    forall j | 0 <= j < |chain| && j != i ensures chain[j].key != h.key {
      assert contents[chain[j].key] == chain[j];
    }
  }

  /** Insertion on values. */
  lemma PutOk(bits: nat, heads: seq<Handle?>, chains: seq<seq<Handle>>, links: map<Handle, Handle?>, contents: map<Key,
      Handle>, h: Handle, i: nat)
    requires TableOk(bits, heads, chains, links, contents) && h !in contents.Values
    requires Bucket(bits, h.key) < |chains| && Found(chains[Bucket(bits, h.key)], h.key, i)
    ensures var b := Bucket(bits, h.key);
      var r := Relinked(heads[b], chains[b], links[h := At(chains[b], i + 1)], i, h);
      TableOk(bits, heads[b := r.0], chains[b := PutAt(chains[b], i, h)], r.1 - Replaced(chains[b], i),
          contents[h.key := h])
  {
    hide Bucket, Pow2, TableOk, Linked, Placed, NoDup;
    TableSizes(bits, heads, chains, links, contents);
    var b := Bucket(bits, h.key);
    var chain, put := chains[b], PutAt(chains[b], i, h);
    SearchDecides(bits, heads, chains, links, contents, h.key, i);
    ChainAt(bits, heads, chains, links, contents, b);
    PlacedNoDup(bits, b, chain, contents);
    PutPlaced(bits, b, chain, contents, h, i);
    PutLinks(heads[b], chain, links, i, h);
    var r := Relinked(heads[b], chain, links[h := At(chain, i + 1)], i, h);
    LinkedMinus(r.0, put, r.1, Replaced(chain, i));
    PutReaches(bits, heads, chains, links, contents, h, i);
    BucketChanged(bits, heads, chains, links, contents, b, r.0, put, r.1 - Replaced(chain, i), contents[h.key := h]);
  }

  lemma DropPlaced(bits: nat, b: nat, chain: seq<Handle>, contents: map<Key, Handle>, i: nat)
    requires bits <= 32 && Placed(bits, b, chain, contents) && i < |chain|
    ensures var cut := chain[..i] + chain[i + 1..];
      Placed(bits, b, cut, contents - {chain[i].key}) && forall j | 0 <= j < |cut| :: cut[j] != chain[i]
  {
    hide Bucket, Pow2;
    var cut := chain[..i] + chain[i + 1..];
    forall j | 0 <= j < |chain| && j != i ensures chain[j].key != chain[i].key {
      assert contents[chain[j].key] == chain[j] && contents[chain[i].key] == chain[i];
    }
  }

  /** Removal on values. */
  lemma DropOk(bits: nat, heads: seq<Handle?>, chains: seq<seq<Handle>>, links: map<Handle, Handle?>,
      contents: map<Key, Handle>, key: Key, i: nat)
    requires TableOk(bits, heads, chains, links, contents)
    requires Bucket(bits, key) < |chains| && Found(chains[Bucket(bits, key)], key, i) && i < |chains[Bucket(bits, key)]|
    ensures var b := Bucket(bits, key);
      var r := Relinked(heads[b], chains[b], links, i, At(chains[b], i + 1));
      TableOk(bits, heads[b := r.0], chains[b := chains[b][..i] + chains[b][i + 1..]], r.1 - {chains[b][i]},
          contents - {key})
  {
    hide Bucket, Pow2, TableOk, Linked, Placed, NoDup;
    TableSizes(bits, heads, chains, links, contents);
    var b := Bucket(bits, key);
    var chain, cut := chains[b], chains[b][..i] + chains[b][i + 1..];
    ChainAt(bits, heads, chains, links, contents, b);
    PlacedNoDup(bits, b, chain, contents);
    DropPlaced(bits, b, chain, contents, i);
    DropLinks(heads[b], chain, links, i);
    var r := Relinked(heads[b], chain, links, i, At(chain, i + 1));
    LinkedMinus(r.0, cut, r.1, {chain[i]});
    DropReaches(bits, heads, chains, links, contents, key, i);
    BucketChanged(bits, heads, chains, links, contents, b, r.0, cut, r.1 - {chain[i]}, contents - {key});
  }

  lemma DropReaches(bits: nat, heads: seq<Handle?>, chains: seq<seq<Handle>>, links: map<Handle, Handle?>,
      contents: map<Key, Handle>, key: Key, i: nat)
    requires TableOk(bits, heads, chains, links, contents)
    requires Bucket(bits, key) < |chains| && Found(chains[Bucket(bits, key)], key, i) && i < |chains[Bucket(bits, key)]|
    ensures var cut := chains[Bucket(bits, key)][..i] + chains[Bucket(bits, key)][i + 1..];
      forall k | k in contents - {key} && Bucket(bits, k) == Bucket(bits, key) ::
          contents[k].key == k && contents[k] in cut
  {
    hide Bucket, Pow2;
    var b := Bucket(bits, key);
    var cut := chains[b][..i] + chains[b][i + 1..];
    forall k | k in contents && k != key && Bucket(bits, k) == b ensures contents[k].key == k && contents[k] in cut {
      assert Reachable(bits, k, chains, contents);
      var j :| 0 <= j < |chains[b]| && chains[b][j] == contents[k];
      assert cut[if j < i then j else j - 1] == contents[k];
    }
  }

  lemma ValuesDrop(contents: map<Key, Handle>, key: Key)
    requires key in contents && forall k | k in contents :: contents[k].key == k
    ensures (contents - {key}).Values == contents.Values - {contents[key]} && |contents - {key}| == |contents| - 1
  {
    var c := contents - {key};
    assert c[key := contents[key]] == contents;
    forall x | x in contents.Values - {contents[key]} ensures x in c.Values {
      var k :| k in contents && contents[k] == x;
      assert c[k] == x;
    }
  }

  lemma PlacedNoDup(bits: nat, b: nat, chain: seq<Handle>, contents: map<Key, Handle>)
    requires bits <= 32 && Placed(bits, b, chain, contents)
    ensures NoDup(chain) && forall j | 0 <= j < |chain| :: Bucket(bits, chain[j].key) == b
  {
  }

  lemma PutReaches(bits: nat, heads: seq<Handle?>, chains: seq<seq<Handle>>, links: map<Handle, Handle?>,
      contents: map<Key, Handle>, h: Handle, i: nat)
    requires TableOk(bits, heads, chains, links, contents)
    requires Bucket(bits, h.key) < |chains| && Found(chains[Bucket(bits, h.key)], h.key, i)
    ensures var put := PutAt(chains[Bucket(bits, h.key)], i, h);
      forall k | k in contents[h.key := h] && Bucket(bits, k) == Bucket(bits, h.key) ::
        contents[h.key := h][k].key == k && contents[h.key := h][k] in put
  {
    hide Bucket, Pow2;
    var b := Bucket(bits, h.key);
    var put := PutAt(chains[b], i, h);
    assert put[i] == h;
    forall k | k in contents && k != h.key && Bucket(bits, k) == b ensures contents[k].key == k && contents[k] in put {
      assert Reachable(bits, k, chains, contents);
      var j :| 0 <= j < |chains[b]| && chains[b][j] == contents[k];
      assert put[j] == contents[k];
    }
  }

  lemma GoodTable(bits: nat, heads: seq<Handle?>, chains: seq<seq<Handle>>, links: map<Handle, Handle?>,
      contents: map<Key, Handle>, elems: nat)
    requires Good(bits, heads, chains, links, contents, elems)
    ensures TableOk(bits, heads, chains, links, contents) && bits <= 32 && |heads| == |chains|
  {
  }

  /** Insert's effect on values, and what it relies on. */
  lemma InsertGood(bits: nat, heads: seq<Handle?>, chains: seq<seq<Handle>>, links: map<Handle, Handle?>,
      contents: map<Key, Handle>, elems: nat, h: Handle, i: nat)
    requires Good(bits, heads, chains, links, contents, elems) && h !in contents.Values && bits <= 32
    requires Bucket(bits, h.key) < |chains| && Found(chains[Bucket(bits, h.key)], h.key, i)
    ensures var b := Bucket(bits, h.key);
      && |heads| == |chains| && i <= |chains[b]|
      && (forall j | 0 <= j < |chains[b]| :: chains[b][j] in links)
      && (h.key in contents <==> i < |chains[b]|) && (h.key in contents ==> contents[h.key] == chains[b][i])
      && (i < |chains[b]| ==> links[chains[b][i]] == At(chains[b], i + 1))
      && var r := Relinked(heads[b], chains[b], links[h := At(chains[b], i + 1)], i, h);
         Good(bits, heads[b := r.0], chains[b := PutAt(chains[b], i, h)], r.1 - Replaced(chains[b], i),
             contents[h.key := h],
              if h.key in contents then elems else elems + 1)
  {
    hide Bucket, Pow2, TableOk, Linked, Placed, NoDup, Found;
    var b := Bucket(bits, h.key);
    TableSizes(bits, heads, chains, links, contents);
    SearchDecides(bits, heads, chains, links, contents, h.key, i);
    ChainMembers(bits, heads, chains, links, contents, b, i);
    PutOk(bits, heads, chains, links, contents, h, i);
    PutKeys(heads[b], chains[b], links, contents, h, i);
  }

  lemma PutKeys(head: Handle?, chain: seq<Handle>, links: map<Handle, Handle?>, contents: map<Key, Handle>, h: Handle,
      i: nat)
    requires i <= |chain| && (forall j | 0 <= j < |chain| :: chain[j] in links) && links.Keys == contents.Values
        && h !in contents.Values
    requires (h.key in contents <==> i < |chain|) && (h.key in contents ==> contents[h.key] == chain[i])
    requires forall k | k in contents :: contents[k].key == k
    ensures (Relinked(head, chain, links[h := At(chain, i + 1)], i, h).1 - Replaced(chain,
        i)).Keys == contents[h.key := h].Values
  {
    RelinkedKeys(head, chain, links[h := At(chain, i + 1)], i, h, Replaced(chain, i));
    ValuesPut(contents, h);
  }

  lemma RemoveGood(bits: nat, heads: seq<Handle?>, chains: seq<seq<Handle>>, links: map<Handle, Handle?>,
      contents: map<Key, Handle>, elems: nat, key: Key, i: nat)
    requires Good(bits, heads, chains, links, contents, elems) && bits <= 32
    requires Bucket(bits, key) < |chains| && Found(chains[Bucket(bits, key)], key, i) && i < |chains[Bucket(bits, key)]|
    ensures var b := Bucket(bits, key);
      && |heads| == |chains| && key in contents && contents[key] == chains[b][i] && elems > 0
      && (forall j | 0 <= j < |chains[b]| :: chains[b][j] in links)
      && links[chains[b][i]] == At(chains[b], i + 1)
      && var r := Relinked(heads[b], chains[b], links, i, At(chains[b], i + 1));
         Good(bits, heads[b := r.0], chains[b := chains[b][..i] + chains[b][i + 1..]], r.1 - {chains[b][i]},
             contents - {key}, elems - 1)
  {
    hide Bucket, Pow2, TableOk, Linked, Placed, NoDup, Found;
    var b := Bucket(bits, key);
    TableSizes(bits, heads, chains, links, contents);
    SearchDecides(bits, heads, chains, links, contents, key, i);
    ChainMembers(bits, heads, chains, links, contents, b, i);
    DropOk(bits, heads, chains, links, contents, key, i);
    RelinkedKeys(heads[b], chains[b], links, i, At(chains[b], i + 1), {chains[b][i]});
    ValuesDrop(contents, key);
  }

  lemma ChainMembers(bits: nat, heads: seq<Handle?>, chains: seq<seq<Handle>>, links: map<Handle, Handle?>,
      contents: map<Key, Handle>, b: nat, i: nat)
    requires TableOk(bits, heads, chains, links, contents) && b < |chains| && i <= |chains[b]|
    ensures forall j | 0 <= j < |chains[b]| :: chains[b][j] in links
    ensures i < |chains[b]| ==> links[chains[b][i]] == At(chains[b], i + 1)
  {
    hide Bucket, Pow2;
    ChainAt(bits, heads, chains, links, contents, b);
  }

  lemma ValuesPut(contents: map<Key, Handle>, h: Handle)
    requires forall k | k in contents :: contents[k].key == k
    ensures contents[h.key := h].Values == (if h.key in contents then contents.Values - {contents[h.key]}
        else contents.Values) + {h}
  {
    var c := contents[h.key := h];
    forall x | x in (if h.key in contents then contents.Values - {contents[h.key]}
        else contents.Values) ensures x in c.Values {
      var k :| k in contents && contents[k] == x;
      assert c[k] == x;
    }
    assert c[h.key] == h;
  }

  lemma TableSizes(bits: nat, heads: seq<Handle?>, chains: seq<seq<Handle>>, links: map<Handle, Handle?>,
      contents: map<Key, Handle>)
    requires TableOk(bits, heads, chains, links, contents)
    ensures bits <= 32 && |heads| == |chains| == Pow2(bits) && forall k | k in contents :: contents[k].key == k
  {
    forall k | k in contents ensures contents[k].key == k {
      assert Reachable(bits, k, chains, contents);
    }
  }

  lemma ChainAt(bits: nat, heads: seq<Handle?>, chains: seq<seq<Handle>>, links: map<Handle, Handle?>,
      contents: map<Key, Handle>, b: nat)
    requires TableOk(bits, heads, chains, links, contents) && b < |chains|
    ensures Linked(heads[b], chains[b], links) && Placed(bits, b, chains[b], contents)
  {
  }
}
