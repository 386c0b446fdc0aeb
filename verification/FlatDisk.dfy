/** What a client of the buffer cache may rely on: a disk of blocks without a cache. */
module FlatDisk {
  import opened BufferLinks
  import opened BufferIndex

  type Block = seq<bv8>

  /** The cache without its links. */
  datatype Cache = Cache(keys: seq<Key>, uptodate: seq<bool>, dirt: seq<bool>, data: seq<Block>, disk: map<Key, Block>)

  /** Buffer `b` is good as far as the disk block it stands for can be written: what is not dirty is on disk. */
  predicate Good(c: Cache, b: nat)
    requires b < |c.keys| == |c.uptodate| == |c.dirt| == |c.data| && c.keys[b] in c.disk
  {
    (c.dirt[b] ==> c.uptodate[b]) && (c.uptodate[b] && !c.dirt[b] ==> c.data[b] == c.disk[c.keys[b]])
  }

  /** `broken` are the blocks of the disk that may refuse to be written. */
  ghost predicate CacheOk(c: Cache, broken: set<Key>) {
    && |c.keys| == |c.uptodate| == |c.dirt| == |c.data|
    && (forall k: Key :: k in c.disk)
    && UniqueKeys(c.keys, NULL)
    && (forall b: nat | b < |c.keys| && c.dirt[b] :: c.keys[b].dev != 0)
    && (forall b: nat | b < |c.keys| && c.keys[b].dev != 0 && c.keys[b] !in broken :: Good(c, b))
  }

  lemma InitialBlocks(c: Cache, broken: set<Key>)
    requires |c.keys| == |c.uptodate| == |c.dirt| == |c.data| && forall k: Key :: k in c.disk
    requires forall b: nat | b < |c.keys| :: c.keys[b].dev == 0 && !c.dirt[b]
    ensures CacheOk(c, broken)
  {
  }

  ghost predicate Shown(c: Cache, k: Key, b: nat)
    requires |c.keys| == |c.uptodate|
  {
    b < |c.keys| && c.keys[b] == k && c.uptodate[b]
  }

  /** The block as a reader gets it: from its buffer, if that is up to date, else from the disk. */
  ghost function Content(c: Cache, k: Key): Block
    requires |c.keys| == |c.uptodate| == |c.data| && k in c.disk
  {
    if exists b: nat :: Shown(c, k, b) then var b: nat :| Shown(c, k, b); c.data[b] else c.disk[k]
  }

  lemma ContentShown(c: Cache, b: nat, broken: set<Key>)
    requires CacheOk(c, broken) && b < |c.keys| && c.uptodate[b] && c.keys[b].dev != 0
    ensures Content(c, c.keys[b]) == c.data[b]
  {
    assert Shown(c, c.keys[b], b);
  }

  lemma ContentHidden(c: Cache, k: Key)
    requires |c.keys| == |c.uptodate| == |c.data| && k in c.disk
    requires forall b: nat | b < |c.keys| && c.keys[b] == k :: !c.uptodate[b]
    ensures Content(c, k) == c.disk[k]
  {
  }

  /** Nothing that can be written reads differently, except possibly `but`. */
  ghost predicate Same(c: Cache, d: Cache, broken: set<Key>, but: set<Key>)
    requires CacheOk(c, broken) && CacheOk(d, broken)
  {
    forall k: Key | k.dev != 0 && k !in broken && k !in but :: Content(d, k) == Content(c, k)
  }

  lemma SameTrans(c: Cache, d: Cache, e: Cache, broken: set<Key>)
    requires CacheOk(c, broken) && CacheOk(d, broken) && CacheOk(e, broken)
    requires Same(c, d, broken, {}) && Same(d, e, broken, {})
    ensures Same(c, e, broken, {})
  {
    forall k: Key | k.dev != 0 && k !in broken ensures Content(e, k) == Content(c, k) {
      assert Content(d, k) == Content(c, k);
    }
  }

  /** Only buffer `b`, and the disk block it stands for, have changed. */
  predicate OnlyBuffer(c: Cache, d: Cache, b: nat) {
    && |c.keys| == |c.uptodate| == |c.dirt| == |c.data| == |d.keys| == |d.uptodate| == |d.dirt| == |d.data|
    && (forall a: nat | a < |c.keys| && a != b ::
          c.keys[a] == d.keys[a] && c.uptodate[a] == d.uptodate[a] && c.dirt[a] == d.dirt[a] && c.data[a] == d.data[a])
    && (b < |c.keys| ==> forall k: Key | k in c.disk && k != c.keys[b] :: k in d.disk && d.disk[k] == c.disk[k])
  }

  lemma OtherContent(c: Cache, d: Cache, b: nat, broken: set<Key>, k: Key)
    requires CacheOk(c, broken) && OnlyBuffer(c, d, b) && b < |c.keys| && k.dev != 0
    requires k in d.disk && k != c.keys[b] && (d.keys[b] == k ==> !d.uptodate[b])
    ensures Content(d, k) == Content(c, k)
  {
    if a: nat :| Shown(c, k, a) {
      assert Shown(d, k, a);
    } else {
      forall a: nat | a < |d.keys| && d.keys[a] == k ensures !d.uptodate[a] {
        if a != b { assert !Shown(c, k, a); }
      }
      ContentHidden(d, k);
    }
  }

  /** A buffer that keeps its block may exchange data with the disk, as long as it stays good and shows the same. */
  lemma Transferred(c: Cache, d: Cache, b: nat, broken: set<Key>)
    requires CacheOk(c, broken) && OnlyBuffer(c, d, b) && b < |c.keys| && d.keys == c.keys
    requires (forall k: Key :: k in d.disk) && (d.dirt[b] ==> c.keys[b].dev != 0)
    requires c.keys[b].dev != 0 && c.keys[b] !in broken ==>
               Good(d, b) && (if c.uptodate[b] then c.data[b] else c.disk[c.keys[b]]) ==
                             (if d.uptodate[b] then d.data[b] else d.disk[c.keys[b]])
    ensures CacheOk(d, broken) && Same(c, d, broken, {})
  {
    forall a: nat | a < |d.keys| && d.keys[a].dev != 0 && d.keys[a] !in broken ensures Good(d, a) {
      if a != b { assert Good(c, a); }
    }
    forall k: Key | k.dev != 0 && k !in broken ensures Content(d, k) == Content(c, k) {
      if k != c.keys[b] {
        OtherContent(c, d, b, broken, k);
      } else {
        ContentOf(c, b, broken);
        ContentOf(d, b, broken);
      }
    }
  }

  lemma ContentOf(c: Cache, b: nat, broken: set<Key>)
    requires CacheOk(c, broken) && b < |c.keys| && c.keys[b].dev != 0
    ensures Content(c, c.keys[b]) == if c.uptodate[b] then c.data[b] else c.disk[c.keys[b]]
  {
    if c.uptodate[b] {
      ContentShown(c, b, broken);
    } else {
      ContentHidden(c, c.keys[b]);
    }
  }

  /** A buffer that is not dirty may be given to another block: nothing is lost. */
  lemma Replaced(c: Cache, b: nat, k: Key, broken: set<Key>)
    requires CacheOk(c, broken) && b < |c.keys|
    requires !c.dirt[b] || c.keys[b] in broken || c.keys[b].dev == 0
    requires forall a: nat | a < |c.keys| && a != b && k.dev != 0 :: c.keys[a] != k
    ensures var d := c.(keys := c.keys[b := k], uptodate := c.uptodate[b := false], dirt := c.dirt[b := false]);
            CacheOk(d, broken) && Same(c, d, broken, {})
  {
    var d := c.(keys := c.keys[b := k], uptodate := c.uptodate[b := false], dirt := c.dirt[b := false]);
    forall a: nat | a < |d.keys| && d.keys[a].dev != 0 && d.keys[a] !in broken ensures Good(d, a) {
      if a != b { assert Good(c, a); }
    }
    forall j: Key | j.dev != 0 && j !in broken ensures Content(d, j) == Content(c, j) {
      if j != c.keys[b] {
        OtherContent(c, d, b, broken, j);
      } else {
        ContentOf(c, b, broken);
        ContentHidden(d, j);
      }
    }
  }

  /** A client writes: the block reads as written, all others as before. */
  lemma Stored(c: Cache, b: nat, block: Block, u: bool, broken: set<Key>)
    requires CacheOk(c, broken) && b < |c.keys| && c.keys[b].dev != 0 && (u || c.keys[b] in broken)
    ensures var d := c.(data := c.data[b := block], dirt := c.dirt[b := true], uptodate := c.uptodate[b := u]);
            CacheOk(d, broken) && Same(c, d, broken, {c.keys[b]}) && (u ==> Content(d, c.keys[b]) == block)
  {
    var d := c.(data := c.data[b := block], dirt := c.dirt[b := true], uptodate := c.uptodate[b := u]);
    forall a: nat | a < |d.keys| && d.keys[a].dev != 0 && d.keys[a] !in broken ensures Good(d, a) {
      if a != b { assert Good(c, a); }
    }
    forall j: Key | j.dev != 0 && j !in broken && j != c.keys[b] ensures Content(d, j) == Content(c, j) {
      OtherContent(c, d, b, broken, j);
    }
    if u { ContentShown(d, b, broken); }
  }

  /** A buffer is dropped: its block reverts to what is on disk. */
  lemma Dropped(c: Cache, b: nat, broken: set<Key>)
    requires CacheOk(c, broken) && b < |c.keys| && c.keys[b].dev != 0
    ensures var d := c.(dirt := c.dirt[b := false], uptodate := c.uptodate[b := false]);
            CacheOk(d, broken) && Same(c, d, broken, {c.keys[b]}) && Content(d, c.keys[b]) == c.disk[c.keys[b]]
  {
    var d := c.(dirt := c.dirt[b := false], uptodate := c.uptodate[b := false]);
    forall a: nat | a < |d.keys| && d.keys[a].dev != 0 && d.keys[a] !in broken ensures Good(d, a) {
      if a != b { assert Good(c, a); }
    }
    forall j: Key | j.dev != 0 && j !in broken && j != c.keys[b] ensures Content(d, j) == Content(c, j) {
      OtherContent(c, d, b, broken, j);
    }
    ContentHidden(d, c.keys[b]);
  }

  /** With nothing dirty the disk alone holds every block: a restart would lose nothing. */
  lemma Durable(c: Cache, broken: set<Key>, k: Key)
    requires CacheOk(c, broken) && k.dev != 0 && k !in broken
    requires forall b: nat | b < |c.keys| && c.keys[b] == k :: !c.dirt[b]
    ensures c.disk[k] == Content(c, k)
  {
    if b: nat :| b < |c.keys| && c.keys[b] == k {
      assert Good(c, b);
      ContentOf(c, b, broken);
    } else {
      ContentHidden(c, k);
    }
  }

  /** What bread does: the buffer of `k` is held once more and is up to date, or the read failed (`b` is NULL) and
      nothing more is held. The read fails exactly when the block is not in the cache and cannot be read. */
  ghost predicate Opened(c: Cache, count: seq<nat>, ring: seq<nat>, k: Key, b: int, d: Cache, count': seq<nat>,
                         broken: set<Key>, unread: set<Key>)
    requires |c.uptodate| == |c.keys| == |count|
  {
    exists g: nat :: OpenedBy(c, count, ring, k, g, b, d, count', broken, unread)
  }

  predicate OpenedBy(c: Cache, count: seq<nat>, ring: seq<nat>, k: Key, g: nat, b: int, d: Cache, count': seq<nat>,
                     broken: set<Key>, unread: set<Key>)
    requires |c.uptodate| == |c.keys| == |count|
  {
    && g < |c.keys| == |d.uptodate| && Gotten(c.keys, count, ring, k, g, d.keys)
    && (b == g || b == NULL) && (b == g ==> d.uptodate[g])
    && (b == NULL <==> k in unread && !(InCache(c.keys, k) && c.uptodate[g]))
    && count' == (if b == g then count[g := count[g] + 1] else count)
    && forall a: nat | a < |c.keys| && a != g && d.keys[a] !in broken :: d.uptodate[a] == c.uptodate[a]
  }

  lemma OpenedAny(c: Cache, count: seq<nat>, ring: seq<nat>, k: Key, g: nat, b: int, d: Cache, count': seq<nat>,
                  broken: set<Key>, unread: set<Key>)
    requires |c.uptodate| == |c.keys| == |count| && OpenedBy(c, count, ring, k, g, b, d, count', broken, unread)
    ensures Opened(c, count, ring, k, b, d, count', broken, unread)
  {
  }

  /** What free_block does to the cache: a block nobody holds is dropped; one in use is not, and is held once more. */
  predicate Forgot(c: Cache, count: seq<nat>, k: Key, d: Cache, count': seq<nat>)
    requires |c.keys| == |c.uptodate| == |c.dirt| == |count|
  {
    && (!InCache(c.keys, k) ==> d == c && count' == count)
    && (forall b: nat | b < |c.keys| && c.keys[b] == k && count[b] > 0 :: d == c && count' == count[b := count[b] + 1])
    && (forall b: nat | b < |c.keys| && c.keys[b] == k && count[b] == 0 ::
          d == c.(dirt := c.dirt[b := false], uptodate := c.uptodate[b := false]) && count' == count)
  }
}
