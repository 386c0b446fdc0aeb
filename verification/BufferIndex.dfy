/** The hash table and the free list together, over all buffer heads. */
module BufferIndex {
  import opened Collections
  import opened BufferLinks

  const NR_HASH := 307

  type Short = s: int | 0 <= s < 0x10000   // unsigned short
  datatype Key = Key(dev: Short, block: Short)

  /** _hashfn */
  function Hash(k: Key): (h: nat)
    ensures h < NR_HASH
  {
    ((k.dev as bv16 ^ k.block as bv16) as int) % NR_HASH
  }

  datatype Links = Links(next: seq<int>, prev: seq<int>, hash: seq<int>, nextFree: seq<nat>, prevFree: seq<nat>, first: nat)

  /** No two buffers other than `out` stand for the same block. Device 0 means no block. */
  predicate UniqueKeys(keys: seq<Key>, out: int) {
    forall b: nat, c: nat | b < |keys| && c < |keys| && b != out && c != out && keys[b] == keys[c] && keys[b].dev != 0 ::
      b == c
  }

  /** The links describe `ring` and `chains`, which hold exactly the buffers they should; buffer `out` is in neither.
      (`out` is NULL when no buffer is being changed.) */
  ghost predicate Indexed(l: Links, keys: seq<Key>, ring: seq<nat>, chains: seq<seq<nat>>, out: int) {
    Free(l, |keys|, ring, out) && Hashed(l, keys, chains, out) && UniqueKeys(keys, out)
  }

  /** Every buffer but `out` is on the free list. */
  ghost predicate Free(l: Links, n: nat, ring: seq<nat>, out: int) {
    && |l.nextFree| == |l.prevFree| == n && Ring(l.nextFree, l.prevFree, l.first, ring)
    && (forall b: nat | b < n :: b in ring <==> b != out)
  }

  /** The buffers of `chain` stand for blocks of hash value `h`. */
  predicate Belong(chain: seq<nat>, keys: seq<Key>, h: nat, out: int) {
    forall b: nat | b in chain :: b < |keys| && b != out && keys[b].dev != 0 && Hash(keys[b]) == h
  }

  /** Every buffer but `out` that stands for a block is in the chain of its hash value, and in no other. */
  ghost predicate Hashed(l: Links, keys: seq<Key>, chains: seq<seq<nat>>, out: int) {
    && |l.next| == |l.prev| == |keys| && |l.hash| == |chains| == NR_HASH
    && (forall h: nat | h < NR_HASH :: Chain(l.next, l.prev, l.hash[h], chains[h]))
    && (forall h: nat | h < NR_HASH :: Belong(chains[h], keys, h, out))
    && (forall b: nat | b < |keys| && b != out && keys[b].dev != 0 :: b in chains[Hash(keys[b])])
    && (forall b: nat | b < |keys| && b != out && keys[b].dev == 0 :: l.next[b] == NULL && l.prev[b] == NULL)
  }

  /** Where `b` is in `s`. */
  function IndexOf(s: seq<nat>, b: nat): (k: nat)
    requires b in s
    ensures k < |s| && s[k] == b
  {
    if s[0] == b then 0 else 1 + IndexOf(s[1..], b)
  }

  function Without(s: seq<nat>, b: nat): seq<nat>
    requires b in s
  {
    Cut(s, IndexOf(s, b))
  }

  // ---------- remove_from_queues ----------

  predicate Linked(l: Links, b: nat) {
    && b < |l.next| == |l.prev| == |l.nextFree| == |l.prevFree| && |l.hash| == NR_HASH
    && (l.next[b] == NULL || 0 <= l.next[b] < |l.next|) && (l.prev[b] == NULL || 0 <= l.prev[b] < |l.next|)
    && l.nextFree[b] < |l.next| && l.prevFree[b] < |l.next|
  }

  function RemoveLinks(l: Links, k: Key, b: nat): Links
    requires Linked(l, b)
  {
    var n, p := l.next[b], l.prev[b];
    var nf, pf := l.nextFree[b], l.prevFree[b];
    Links(
      Put(l.next, p, n), Put(l.prev, n, p),
      if l.hash[Hash(k)] == b then l.hash[Hash(k) := n] else l.hash,
      l.nextFree[pf := nf], l.prevFree[nf := pf],
      if l.first == b then nf else l.first)
  }

  function RemoveChain(chains: seq<seq<nat>>, k: Key, b: nat): seq<seq<nat>>
    requires |chains| == NR_HASH && (k.dev != 0 ==> b in chains[Hash(k)])
  {
    if k.dev == 0 then chains else chains[Hash(k) := Without(chains[Hash(k)], b)]
  }

  lemma LinkedIn(l: Links, keys: seq<Key>, ring: seq<nat>, chains: seq<seq<nat>>, b: nat)
    requires Indexed(l, keys, ring, chains, NULL) && b < |keys|
    ensures Linked(l, b)
  {
    var k := IndexOf(ring, b);
    assert RingAt(l.nextFree, l.prevFree, ring, k);
    assert RingAt(l.nextFree, l.prevFree, ring, Succ(k, |ring|)) && RingAt(l.nextFree, l.prevFree, ring, Pred(k, |ring|));
    if keys[b].dev != 0 {
      var h := Hash(keys[b]);
      ChainRemove(l.next, l.prev, l.hash[h], chains[h], IndexOf(chains[h], b));
    }
  }

  lemma Removed(l: Links, keys: seq<Key>, ring: seq<nat>, chains: seq<seq<nat>>, b: nat)
    requires Indexed(l, keys, ring, chains, NULL) && b < |keys| && |ring| > 1
    ensures Linked(l, b)
    ensures Indexed(RemoveLinks(l, keys[b], b), keys, Without(ring, b), RemoveChain(chains, keys[b], b), b)
  {
    LinkedIn(l, keys, ring, chains, b);
    RemovedFromRing(l, keys, ring, b);
    if keys[b].dev != 0 {
      RemovedFromChain(l, keys, chains, b);
    } else {
      assert l.hash[Hash(keys[b])] == At(chains[Hash(keys[b])], 0);
    }
  }

  lemma RemovedFromRing(l: Links, keys: seq<Key>, ring: seq<nat>, b: nat)
    requires Free(l, |keys|, ring, NULL) && b < |keys| && |ring| > 1 && Linked(l, b)
    ensures Free(RemoveLinks(l, keys[b], b), |keys|, Without(ring, b), b)
  {
    RingRemove(l.nextFree, l.prevFree, l.first, ring, IndexOf(ring, b));
    CutKeeps(ring, IndexOf(ring, b));
  }

  lemma RemovedFromChain(l: Links, keys: seq<Key>, chains: seq<seq<nat>>, b: nat)
    requires Hashed(l, keys, chains, NULL) && b < |keys| && keys[b].dev != 0 && Linked(l, b)
    ensures Hashed(RemoveLinks(l, keys[b], b), keys, RemoveChain(chains, keys[b], b), b)
  {
    hide Chain;
    RemovedChains(l, keys, chains, b);
    var cs := RemoveChain(chains, keys[b], b);
    forall c: nat | c < |keys| && c != b && keys[c].dev != 0 ensures c in cs[Hash(keys[c])] {
      assert c in chains[Hash(keys[c])];
    }
    forall h: nat | h < NR_HASH ensures Belong(cs[h], keys, h, b) {
      assert Belong(chains[h], keys, h, NULL);
    }
  }

  lemma RemovedChains(l: Links, keys: seq<Key>, chains: seq<seq<nat>>, b: nat)
    requires Hashed(l, keys, chains, NULL) && b < |keys| && keys[b].dev != 0 && Linked(l, b)
    ensures var r, cs := RemoveLinks(l, keys[b], b), RemoveChain(chains, keys[b], b);
            && (forall h: nat | h < NR_HASH :: Chain(r.next, r.prev, r.hash[h], cs[h]))
            && (forall h: nat, c: nat | h < NR_HASH :: c in cs[h] <==> c in chains[h] && c != b)
            && (forall c: nat | c < |keys| && keys[c].dev == 0 :: r.next[c] == NULL && r.prev[c] == NULL)
  {
    var r, cs := RemoveLinks(l, keys[b], b), RemoveChain(chains, keys[b], b);
    var g := Hash(keys[b]);
    ChainRemove(l.next, l.prev, l.hash[g], chains[g], IndexOf(chains[g], b));
    CutKeeps(chains[g], IndexOf(chains[g], b));
    forall h: nat | h < NR_HASH && h != g ensures Chain(r.next, r.prev, r.hash[h], cs[h]) && b !in chains[h] {
      assert Belong(chains[h], keys, h, NULL);
      ChainKept(l.next, l.prev, r.next, r.prev, l.hash[h], chains[h]);
    }
  }

  /** What the buffer that is out stands for does not matter to the queues. */
  lemma Rekeyed(l: Links, keys: seq<Key>, ring: seq<nat>, chains: seq<seq<nat>>, b: nat, k: Key)
    requires Indexed(l, keys, ring, chains, b) && b < |keys|
    ensures Indexed(l, keys[b := k], ring, chains, b)
  {
    var keys' := keys[b := k];
    forall c: nat | c < |keys'| && c != b && keys'[c].dev != 0 ensures c in chains[Hash(keys'[c])] {
      assert keys'[c] == keys[c];
    }
    forall h: nat | h < NR_HASH ensures Belong(chains[h], keys', h, b) {
      assert Belong(chains[h], keys, h, b);
    }
  }

  // ---------- insert_into_queues ----------

  predicate Insertable(l: Links, k: Key, b: nat) {
    && b < |l.next| == |l.prev| == |l.nextFree| == |l.prevFree| && |l.hash| == NR_HASH
    && l.first < |l.next| && l.prevFree[l.first] < |l.next|
    && (l.hash[Hash(k)] == NULL || 0 <= l.hash[Hash(k)] < |l.next|)
  }

  function InsertLinks(l: Links, k: Key, b: nat): Links
    requires Insertable(l, k, b)
  {
    var head, last := l.hash[Hash(k)], l.prevFree[l.first];
    var l1 := l.(nextFree := l.nextFree[b := l.first][last := b], prevFree := l.prevFree[b := last][l.first := b]);
    if k.dev == 0 then l1.(next := l.next[b := NULL], prev := l.prev[b := NULL])
    else l1.(next := l.next[b := head], prev := Put(l.prev[b := NULL], head, b), hash := l.hash[Hash(k) := b])
  }

  function InsertChain(chains: seq<seq<nat>>, k: Key, b: nat): seq<seq<nat>>
    requires |chains| == NR_HASH
  {
    if k.dev == 0 then chains else chains[Hash(k) := [b] + chains[Hash(k)]]
  }

  /** The buffer that is out comes back as `k`, which no other buffer may stand for. */
  lemma Inserted(l: Links, keys: seq<Key>, ring: seq<nat>, chains: seq<seq<nat>>, b: nat)
    requires Indexed(l, keys, ring, chains, b) && b < |keys|
    requires forall c: nat | c < |keys| && c != b && keys[b].dev != 0 :: keys[c] != keys[b]
    ensures Insertable(l, keys[b], b)
    ensures Indexed(InsertLinks(l, keys[b], b), keys, ring + [b], InsertChain(chains, keys[b], b), NULL)
  {
    RingInsert(l.nextFree, l.prevFree, l.first, ring, b);
    ChainInsert(l.next, l.prev, l.hash[Hash(keys[b])], chains[Hash(keys[b])], b);
    InsertedChains(l, keys, chains, b);
    hide Hashed;
    forall c: nat | c < |keys| ensures c in ring + [b] {
      assert c == b || c in ring;
    }
  }

  lemma InsertedChains(l: Links, keys: seq<Key>, chains: seq<seq<nat>>, b: nat)
    requires Hashed(l, keys, chains, b) && b < |keys| && Insertable(l, keys[b], b)
    ensures Hashed(InsertLinks(l, keys[b], b), keys, InsertChain(chains, keys[b], b), NULL)
  {
    hide Ring;
    var k := keys[b];
    var g := Hash(k);
    ChainInsert(l.next, l.prev, l.hash[g], chains[g], b);
    var r, cs := InsertLinks(l, k, b), InsertChain(chains, k, b);
    forall h: nat | h < NR_HASH && (h != g || k.dev == 0) ensures Chain(r.next, r.prev, r.hash[h], cs[h]) {
      assert Belong(chains[h], keys, h, b);
      ChainKept(l.next, l.prev, r.next, r.prev, l.hash[h], chains[h]);
    }
  }

  /** A block that no chain of its own hash value shows is nowhere in the cache. */
  lemma NotFound(l: Links, keys: seq<Key>, ring: seq<nat>, chains: seq<seq<nat>>, out: int, k: Key)
    requires Indexed(l, keys, ring, chains, out) && k.dev != 0
    requires forall b | b in chains[Hash(k)] && b < |keys| :: keys[b] != k
    ensures forall b: nat | b < |keys| && b != out :: keys[b] != k
  {
  }

  // ---------- Choosing a buffer ----------

  /** The first buffer of the free list that nobody holds; the first of all if everybody holds one. */
  predicate Victim(ring: seq<nat>, count: seq<nat>, b: nat) {
    exists i | 0 <= i < |ring| ::
      && ring[i] == b && b < |count| && (forall j | 0 <= j < i :: ring[j] < |count| && count[ring[j]] > 0)
      && (count[b] > 0 ==> i == 0 && forall c | 0 <= c < |count| :: count[c] > 0)
  }

  predicate InCache(keys: seq<Key>, k: Key) { exists b: nat | b < |keys| :: keys[b] == k }

  /** What getblk does to the identities of the buffers. */
  predicate Gotten(keys: seq<Key>, count: seq<nat>, ring: seq<nat>, k: Key, b: nat, keys': seq<Key>) {
    && b < |keys'| == |keys| == |count| && keys'[b] == k
    && (if k.dev != 0 && InCache(keys, k) then keys' == keys else Victim(ring, count, b) && keys' == keys[b := k])
  }

  /** getblk leaves the buffers that are in use alone exactly if it finds the block or a buffer that nobody holds. */
  lemma HeldStay(keys: seq<Key>, count: seq<nat>, ring: seq<nat>, k: Key, b: nat, keys': seq<Key>)
    requires Gotten(keys, count, ring, k, b, keys') && k.dev != 0
    ensures (forall c: nat | c < |keys| && count[c] > 0 :: keys'[c] == keys[c]) <==>
            (InCache(keys, k) || exists c: nat | c < |keys| :: count[c] == 0)
  {
    if !InCache(keys, k) {
      assert keys[b] != k;
    }
  }

  /** As buffer_init leaves them: all buffers free, in order. */
  ghost predicate Initial(l: Links, keys: seq<Key>, n: nat) {
    && |l.next| == |l.prev| == |l.nextFree| == |l.prevFree| == |keys| == n && |l.hash| == NR_HASH && l.first == 0
    && (forall b: nat | b < n :: l.next[b] == NULL && l.prev[b] == NULL && keys[b].dev == 0)
    && (forall h: nat | h < NR_HASH :: l.hash[h] == NULL)
    && (forall b: nat | b < n :: l.nextFree[b] == Succ(b, n) && l.prevFree[b] == Pred(b, n))
  }

  function InitialRing(n: nat): seq<nat> { seq(n, i requires 0 <= i => i) }
  function InitialChains(): seq<seq<nat>> { seq(NR_HASH, _ => []) }

  lemma InitialIndexed(l: Links, keys: seq<Key>, n: nat)
    requires n > 0 && Initial(l, keys, n)
    ensures Indexed(l, keys, InitialRing(n), InitialChains(), NULL)
  {
    var ring := InitialRing(n);
    forall i | 0 <= i < n ensures RingAt(l.nextFree, l.prevFree, ring, i) { }
    forall b: nat | b < n ensures b in ring {
      assert ring[b] == b;
    }
  }
}
