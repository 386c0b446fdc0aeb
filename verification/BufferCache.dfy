/** fs/buffer.c, one process at a time: nobody sleeps, so no buffer is ever found locked. A buffer head is its number;
    the fields of the heads are arrays. */
module BufferCache {
  import opened Collections
  import opened BufferLinks
  import opened BufferIndex
  import opened FlatDisk

  class Buffers {
    const broken: set<Key>          // blocks of the disk that may refuse to be written
    const unread: set<Key>          // blocks of the disk that cannot be read
    var disk: map<Key, Block>

    const key: array<Key>           // b_dev, b_blocknr
    const uptodate: array<bool>
    const dirt: array<bool>
    const data: array<Block>
    const count: array<nat>

    const next: array<int>
    const prev: array<int>
    const hash: array<int>
    const nextFree: array<nat>
    const prevFree: array<nat>
    var freeList: nat

    ghost var ring: seq<nat>        // the free list, from its head
    ghost var chains: seq<seq<nat>> // the hash chains

    ghost function Queues(): Links
      reads this, next, prev, hash, nextFree, prevFree
    {
      Links(next[..], prev[..], hash[..], nextFree[..], prevFree[..], freeList)
    }

    ghost function Blocks(): Cache
      reads this, key, uptodate, dirt, data
    {
      Cache(key[..], uptodate[..], dirt[..], data[..], disk)
    }

    ghost predicate Apart()
      reads this
    {
      && 2 <= key.Length == uptodate.Length == dirt.Length == data.Length == count.Length
      && key.Length == next.Length == prev.Length == nextFree.Length == prevFree.Length && hash.Length == NR_HASH
      && next != prev && next != hash && prev != hash && uptodate != dirt
      && nextFree != prevFree && nextFree != count && prevFree != count
      && nextFree as object != next && nextFree as object != prev && nextFree as object != hash
      && prevFree as object != next && prevFree as object != prev && prevFree as object != hash
      && count as object != next && count as object != prev && count as object != hash
    }

    function Repr(): set<object> {
      {this, key, uptodate, dirt, data, count, next, prev, hash, nextFree, prevFree}
    }

    /** All is well, except that buffer `out` is in no queue. */
    ghost predicate Queued(out: int)
      reads this, key, uptodate, dirt, data, next, prev, hash, nextFree, prevFree
    {
      && Apart()
      && Indexed(Queues(), key[..], ring, chains, out)
      && CacheOk(Blocks(), broken)
    }

    ghost predicate Valid()
      reads this, key, uptodate, dirt, data, next, prev, hash, nextFree, prevFree
    {
      Queued(NULL)
    }

    /** buffer_init */
    constructor (n: nat, disk0: map<Key, Block>, broken0: set<Key>, unread0: set<Key>)
      requires n >= 2 && forall k: Key :: k in disk0
      ensures Valid() && key.Length == n && disk == disk0 && broken == broken0 && unread == unread0
      ensures fresh(key) && fresh(uptodate) && fresh(dirt) && fresh(data) && fresh(count)
      ensures fresh(next) && fresh(prev) && fresh(hash) && fresh(nextFree) && fresh(prevFree)
      ensures forall b | 0 <= b < n :: count[b] == 0 && !uptodate[b] && key[b].dev == 0
    {
      hide Indexed, CacheOk, Succ, Pred;
      disk, broken, unread, freeList := disk0, broken0, unread0, 0;
      key := new Key[n](_ => Key(0, 0));
      uptodate, dirt := new bool[n](_ => false), new bool[n](_ => false);
      data := new Block[n](_ => []);
      count := new nat[n](_ => 0);
      next, prev, hash := new int[n](_ => NULL), new int[n](_ => NULL), new int[NR_HASH](_ => NULL);
      nextFree := new nat[n](i => Succ(i, n));
      prevFree := new nat[n](i requires 0 <= i => Pred(i, n));
      ring, chains := InitialRing(n), InitialChains();
      new;
      Booted(n);
    }

    lemma Booted(n: nat)
      requires Apart() && key.Length == n && (forall k: Key :: k in disk) && freeList == 0
      requires ring == InitialRing(n) && chains == InitialChains()
      requires forall b: nat | b < n :: next[b] == NULL && prev[b] == NULL && key[b].dev == 0 && !dirt[b]
      requires forall b: nat | b < n :: nextFree[b] == Succ(b, n) && prevFree[b] == Pred(b, n)
      requires forall h: nat | h < NR_HASH :: hash[h] == NULL
      ensures Valid()
    {
      hide Indexed, CacheOk, Succ, Pred;
      InitialIndexed(Queues(), key[..], n);
      InitialBlocks(Blocks(), broken);
    }

    // ---------- Queues ----------

    method RemoveFromQueues(b: nat)
      requires Valid() && b < key.Length
      modifies this`freeList, this`ring, this`chains, next, prev, hash, nextFree, prevFree
      ensures Queued(b) && ring == Without(old(ring), b)
    {
      hide Indexed, CacheOk, Hash;
      RemovedHere(b);
      ghost var l, r := Queues(), ring;
      Unchain(b);
      var pf, nf := prevFree[b], nextFree[b];
      nextFree[pf] := nf;
      prevFree[nf] := pf;
      if freeList == b { freeList := nf; }
      chains := RemoveChain(chains, key[b], b);
      ring := Without(r, b);
      assert Queues() == RemoveLinks(l, key[b], b);
    }

    method Unchain(b: nat)
      requires Apart() && Linked(Queues(), b)
      modifies next, prev, hash
      ensures var l, k := RemoveLinks(old(Queues()), key[b], b), key[b];
              next[..] == l.next && prev[..] == l.prev && hash[..] == l.hash
    {
      var n, p, h := next[b], prev[b], Hash(key[b]);
      if n != NULL { prev[n] := p; }
      if p != NULL { next[p] := n; }
      if hash[h] == b { hash[h] := n; }
    }

    lemma RemovedHere(b: nat)
      requires Valid() && b < key.Length
      ensures b in ring && Linked(Queues(), b) && (key[b].dev != 0 ==> b in chains[Hash(key[b])]) && |chains| == NR_HASH
      ensures Indexed(RemoveLinks(Queues(), key[b], b), key[..], Without(ring, b), RemoveChain(chains, key[b], b), b)
    {
      assert 0 in ring && 1 in ring;
      Removed(Queues(), key[..], ring, chains, b);
    }

    /** At the end of the free list, at the head of the hash chain. (When the chain is empty, the source also writes the
        back link through its NULL pointer; that write is left out.) */
    method InsertIntoQueues(b: nat)
      requires b < key.Length && Queued(b)
      requires forall c: nat | c < key.Length && c != b && key[b].dev != 0 :: key[c] != key[b]
      modifies this`ring, this`chains, next, prev, hash, nextFree, prevFree
      ensures Valid() && ring == old(ring) + [b]
    {
      hide Indexed, CacheOk, Hash;
      InsertedHere(b);
      ghost var l, r, cs := Queues(), ring + [b], InsertChain(chains, key[b], b);
      var last := prevFree[freeList];
      nextFree[b] := freeList;
      prevFree[b] := last;
      nextFree[last] := b;
      prevFree[freeList] := b;
      InChain(b);
      ring, chains := r, cs;
      assert Queues() == InsertLinks(l, key[b], b);
    }

    method InChain(b: nat)
      requires Apart() && b < key.Length && (hash[Hash(key[b])] == NULL || 0 <= hash[Hash(key[b])] < key.Length)
      modifies next, prev, hash
      ensures var h, head := Hash(key[b]), old(hash[Hash(key[b])]);
              if key[b].dev == 0 then
                next[..] == old(next[..])[b := NULL] && prev[..] == old(prev[..])[b := NULL] && hash[..] == old(hash[..])
              else
                next[..] == old(next[..])[b := head] && prev[..] == Put(old(prev[..])[b := NULL], head, b)
                && hash[..] == old(hash[..])[h := b]
    {
      prev[b] := NULL;
      next[b] := NULL;
      if key[b].dev == 0 { return; }
      var h := Hash(key[b]);
      next[b] := hash[h];
      hash[h] := b;
      if next[b] != NULL { prev[next[b]] := b; }
    }

    lemma InsertedHere(b: nat)
      requires b < key.Length && Queued(b)
      requires forall c: nat | c < key.Length && c != b && key[b].dev != 0 :: key[c] != key[b]
      ensures Insertable(Queues(), key[b], b) && |chains| == NR_HASH
      ensures Indexed(InsertLinks(Queues(), key[b], b), key[..], ring + [b], InsertChain(chains, key[b], b), NULL)
    {
      Inserted(Queues(), key[..], ring, chains, b);
    }

    /** The buffer of a block, wherever it is in its chain. */
    method FindBuffer(k: Key, ghost out: int) returns (b: int)
      requires Queued(out)
      ensures b == NULL ==> forall c: nat | c < key.Length && c != out && k.dev != 0 :: key[c] != k
      ensures b != NULL ==> 0 <= b < key.Length && b != out && key[b] == k && k.dev != 0
    {
      ghost var l, chain := Queues(), chains[Hash(k)];
      ghost var i := 0;
      b := hash[Hash(k)];
      while b != NULL
        invariant 0 <= i <= |chain| && b == At(chain, i)
        invariant forall j | 0 <= j < i :: chain[j] < key.Length && key[chain[j]] != k
        decreases |chain| - i
      {
        assert chain[i] in chain && ChainAt(l.next, l.prev, chain, i);
        if key[b] == k { return; }
        b := next[b];
        i := i + 1;
      }
      if k.dev != 0 {
        NotFound(l, key[..], ring, chains, out, k);
      }
    }

    // ---------- The disk ----------

    /** ll_rw_block for a write, and what the interrupt handler makes of it. A block that is not broken is written;
        another may be written, may fail, or may be out of range, in which case nothing happens. */
    method WriteBlock(b: nat)
      requires Apart() && CacheOk(Blocks(), broken) && b < key.Length && dirt[b]
      modifies this`disk, uptodate, dirt
      ensures CacheOk(Blocks(), broken) && Same(old(Blocks()), Blocks(), broken, {})
      ensures OnlyBuffer(old(Blocks()), Blocks(), b)
      ensures key[b] !in broken ==> !dirt[b] && uptodate[b]
    {
      ghost var c := Blocks();
      var done: bool, error: bool := *, *;
      if key[b] !in broken || done {
        disk := disk[key[b] := data[b]];
        uptodate[b], dirt[b] := true, false;
      } else if error {
        uptodate[b] := false;
      }
      Transferred(c, Blocks(), b, broken);
    }

    /** ll_rw_block for a read. */
    method ReadBlock(b: nat)
      requires Apart() && CacheOk(Blocks(), broken) && b < key.Length && !uptodate[b] && key[b].dev != 0
      modifies uptodate, dirt, data
      ensures CacheOk(Blocks(), broken) && Same(old(Blocks()), Blocks(), broken, {})
      ensures OnlyBuffer(old(Blocks()), Blocks(), b)
      ensures uptodate[b] <==> key[b] !in unread
      ensures uptodate[b] ==> data[b] == disk[key[b]]
    {
      ghost var c := Blocks();
      if key[b] !in unread {
        data[b] := disk[key[b]];
        uptodate[b], dirt[b] := true, false;
      }
      Transferred(c, Blocks(), b, broken);
    }

    /** Between `c` and now, some dirty buffers have been written out. */
    ghost predicate Synced(c: Cache)
      requires CacheOk(c, broken) && Apart() && CacheOk(Blocks(), broken)
      reads this, key, uptodate, dirt, data
    {
      && key[..] == c.keys && data[..] == c.data && Same(c, Blocks(), broken, {})
      && (forall b: nat | b < key.Length && dirt[b] :: c.dirt[b])
      && (forall b: nat | b < key.Length && key[b] !in broken :: uptodate[b] == c.uptodate[b])
    }

    method SyncBuffer(b: nat, ghost c: Cache)
      requires Apart() && CacheOk(Blocks(), broken) && b < key.Length && CacheOk(c, broken) && Synced(c)
      modifies this`disk, uptodate, dirt
      ensures CacheOk(Blocks(), broken) && Synced(c)
      ensures forall a: nat | a < key.Length && dirt[a] :: old(dirt[a])
      ensures key[b] !in broken ==> !dirt[b]
    {
      if dirt[b] {
        ghost var d := Blocks();
        assert key[b].dev != 0 && (key[b] !in broken ==> Good(d, b));
        WriteBlock(b);
        SameTrans(c, d, Blocks(), broken);
      }
    }

    /** Everything dirty on one device is written. */
    method SyncDev(dev: Short)
      requires Apart() && CacheOk(Blocks(), broken)
      modifies this`disk, uptodate, dirt
      ensures CacheOk(Blocks(), broken) && Synced(old(Blocks()))
      ensures forall b: nat | b < key.Length && key[b].dev == dev && key[b] !in broken :: !dirt[b]
    {
      var i := 0;
      while i < key.Length
        invariant 0 <= i <= key.Length && CacheOk(Blocks(), broken) && Synced(old(Blocks()))
        invariant forall b: nat | b < i && key[b].dev == dev && key[b] !in broken :: !dirt[b]
      {
        if key[i].dev == dev {
          SyncBuffer(i, old(Blocks()));
        }
        i := i + 1;
      }
    }

    /** Afterwards the disk alone shows every block as the cache does. */
    method SysSync()
      requires Valid()
      modifies this`disk, uptodate, dirt
      ensures Valid() && Synced(old(Blocks()))
      ensures forall k: Key | k.dev != 0 && k !in broken :: disk[k] == Content(Blocks(), k)
    {
      var i := 0;
      while i < key.Length
        invariant 0 <= i <= key.Length && CacheOk(Blocks(), broken) && Synced(old(Blocks()))
        invariant forall b: nat | b < i && key[b] !in broken :: !dirt[b]
      {
        SyncBuffer(i, old(Blocks()));
        i := i + 1;
      }
      forall k: Key | k.dev != 0 && k !in broken ensures disk[k] == Content(Blocks(), k) {
        Durable(Blocks(), broken, k);
      }
    }

    // ---------- Getting a block's buffer ----------

    /** get_hash_table. The re-check after the wait cannot fail when nobody else runs. */
    method GetHashTable(k: Key) returns (b: int)
      requires Valid()
      modifies count
      ensures b == NULL ==> (k.dev != 0 ==> !InCache(key[..], k)) && count[..] == old(count[..])
      ensures b != NULL ==> 0 <= b < key.Length && key[b] == k && k.dev != 0
                            && count[..] == old(count[..])[b := old(count[b]) + 1]
    {
      b := FindBuffer(k, NULL);
      if b != NULL {
        count[b] := count[b] + 1;
        assert key[b] == k;
      }
    }

    /** The scan of the free list. */
    method ScanFree() returns (b: nat)
      requires Valid()
      ensures b in ring && b < key.Length && Victim(ring, count[..], b)
    {
      hide Indexed, CacheOk;
      ghost var i := 0;
      FreeLink(0);
      b := freeList;
      while true
        invariant 0 <= i < |ring| && b == ring[i] && b < key.Length
        invariant forall j | 0 <= j < i :: ring[j] < key.Length && count[ring[j]] > 0
        decreases |ring| - i
      {
        FreeLink(i);
        if count[b] == 0 { break; }
        b := nextFree[b];
        FreeLink(i + 1);
        if b == freeList {
          AllHeld();
          break;
        }
        i := i + 1;
      }
    }

    lemma FreeLink(i: nat)
      requires Valid()
      ensures |ring| > 1 && ring[0] == freeList && (i < |ring| ==> ring[i] < key.Length)
      ensures i < |ring| ==> nextFree[ring[i]] == if i + 1 == |ring| then freeList else ring[i + 1]
      ensures 0 < i < |ring| ==> ring[i] != freeList
    {
      assert 0 in ring && 1 in ring;
      if i < |ring| { assert RingAt(nextFree[..], prevFree[..], ring, i); }
    }

    lemma AllHeld()
      requires Valid() && forall j | 0 <= j < |ring| :: ring[j] < key.Length && count[ring[j]] > 0
      ensures forall c | 0 <= c < key.Length :: count[c] > 0
    {
      forall c | 0 <= c < key.Length ensures count[c] > 0 {
        assert c in ring;
      }
    }

    /** A buffer is taken out of the queues, cleaned, and put back for another block. Nobody else runs, so the block
        does not turn up meanwhile. */
    method Replace(b: nat, k: Key)
      requires Valid() && b < key.Length && (k.dev != 0 ==> !InCache(key[..], k))
      modifies this`disk, this`freeList, this`ring, this`chains, key, uptodate, dirt, next, prev, hash, nextFree, prevFree
      ensures Valid() && key[..] == old(key[..])[b := k] && b in old(ring) && ring == Without(old(ring), b) + [b]
      ensures !uptodate[b] && Same(old(Blocks()), Blocks(), broken, {})
      ensures forall c: nat | c < key.Length && c != b && key[c] !in broken :: uptodate[c] == old(uptodate[c])
    {
      hide Indexed, Same, Good, Content, UniqueKeys;
      ghost var c0 := Blocks();
      RemoveFromQueues(b);
      Clean(b, c0);
      ghost var c := Blocks();
      Replaced(c, b, k, broken);
      Rekeyed(Queues(), key[..], ring, chains, b, k);
      key[b], dirt[b], uptodate[b] := k, false, false;
      SameTrans(c0, c, Blocks(), broken);
      var again := FindBuffer(k, b);
      assert again == NULL;
      InsertIntoQueues(b);
    }

    method Clean(b: nat, ghost c: Cache)
      requires Queued(b) && b < key.Length && Blocks() == c
      modifies this`disk, uptodate, dirt
      ensures Queued(b) && Queues() == old(Queues()) && Synced(c) && (key[b] !in broken ==> !dirt[b])
    {
      if dirt[b] {
        SyncDev(key[b].dev);
      }
    }

    method GetBlk(k: Key) returns (b: nat)
      requires Valid()
      modifies this`disk, this`freeList, this`ring, this`chains, key, uptodate, dirt, count, next, prev, hash, nextFree, prevFree
      ensures Valid() && b < key.Length && Same(old(Blocks()), Blocks(), broken, {})
      ensures Gotten(old(key[..]), old(count[..]), old(ring), k, b, key[..])
      ensures count[..] == old(count[..])[b := old(count[b]) + 1]
      ensures k.dev != 0 && InCache(old(key[..]), k) ==> Blocks() == old(Blocks()) && ring == old(ring)
      ensures !(k.dev != 0 && InCache(old(key[..]), k)) ==>
                !uptodate[b] && b in old(ring) && ring == Without(old(ring), b) + [b]
      ensures forall c: nat | c < key.Length && c != b && key[c] !in broken :: uptodate[c] == old(uptodate[c])
    {
      var tmp := GetHashTable(k);
      if tmp != NULL { return tmp; }
      b := ScanFree();
      count[b] := count[b] + 1;
      Replace(b, k);
    }

    /** Releasing a buffer that nobody holds is a panic. */
    method Brelse(b: nat)
      requires b < count.Length && count[b] > 0
      modifies count
      ensures count[..] == old(count[..])[b := old(count[b]) - 1]
    {
      count[b] := count[b] - 1;
    }

    /** A read that fails gives the buffer back. */
    method Bread(k: Key) returns (b: int)
      requires Valid() && k.dev != 0
      modifies this`disk, this`freeList, this`ring, this`chains, key, uptodate, dirt, data, count,
        next, prev, hash, nextFree, prevFree
      ensures Valid() && Same(old(Blocks()), Blocks(), broken, {})
      ensures Opened(old(Blocks()), old(count[..]), old(ring), k, b, Blocks(), count[..], broken, unread)
    {
      hide Indexed, CacheOk, Same, Victim, Gotten, UniqueKeys, Opened;
      ghost var c, n, r := Blocks(), count[..], ring;
      var g := GetBlk(k);
      if uptodate[g] {
        b := g;
      } else {
        b := ReadHeld(g, c);
      }
      assert OpenedBy(c, n, r, k, g, b, Blocks(), count[..], broken, unread);
      OpenedAny(c, n, r, k, g, b, Blocks(), count[..], broken, unread);
    }

    method ReadHeld(g: nat, ghost c: Cache) returns (b: int)
      requires Valid() && g < key.Length && count[g] > 0 && !uptodate[g] && key[g].dev != 0
      requires CacheOk(c, broken) && Same(c, Blocks(), broken, {})
      modifies uptodate, dirt, data, count
      ensures Valid() && Same(c, Blocks(), broken, {})
      ensures if uptodate[g] then b == g && count[..] == old(count[..])
              else b == NULL && count[..] == old(count[..])[g := old(count[g]) - 1]
      ensures uptodate[g] <==> key[g] !in unread
      ensures forall a | 0 <= a < key.Length && a != g :: uptodate[a] == old(uptodate[a])
    {
      hide Indexed, CacheOk, Same;
      ghost var d := Blocks();
      ReadBlock(g);
      SameTrans(c, d, Blocks(), broken);
      if uptodate[g] { return g; }
      Brelse(g);
      b := NULL;
    }

    /** The end of new_block: the block is filled without being read. Only its one holder may do that. */
    method Fill(b: nat, block: Block)
      requires Apart() && b < key.Length && count[b] == 1
      modifies data, uptodate, dirt, count
      ensures count[..] == old(count[..])[b := 0]
      ensures var c := old(Blocks());
              Blocks() == c.(data := c.data[b := block], dirt := c.dirt[b := true], uptodate := c.uptodate[b := true])
    {
      data[b] := block;
      uptodate[b] := true;
      dirt[b] := true;
      Brelse(b);
    }

    /** The part of free_block that concerns the cache. A block in use is not dropped, and the hold taken on it here is
        never given back. */
    method Forget(k: Key)
      requires Valid() && k.dev != 0
      modifies uptodate, dirt, count
      ensures Apart() && Forgot(old(Blocks()), old(count[..]), k, Blocks(), count[..])
    {
      hide Indexed, CacheOk;
      var b := GetHashTable(k);
      if b != NULL {
        OnlyOne(b, k);
        if count[b] != 1 { return; }
        dirt[b] := false;
        uptodate[b] := false;
        Brelse(b);
      }
    }

    lemma OnlyOne(b: nat, k: Key)
      requires Valid() && b < key.Length && key[b] == k && k.dev != 0
      ensures forall c: nat | c < key.Length && key[c] == k :: c == b
    {
    }
  }
}
