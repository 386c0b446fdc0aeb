/** Clients that hold buffers, over whole runs, see a disk without a cache. */
module BufferRuns {
  import opened Collections
  import opened BufferLinks
  import opened BufferIndex
  import opened FlatDisk
  import opened BufferCache

  /** The disk as its clients know it, and the blocks they hold. */
  datatype Flat = Flat(content: map<Key, Block>, held: multiset<Key>)

  datatype Op =
    | Open(k: Key)                  // bread
    | Peek(k: Key)                  // look into a held buffer
    | Store(k: Key, block: Block)   // write into a held buffer
    | Close(k: Key)                 // brelse
    | Create(k: Key, block: Block)  // getblk, fill, brelse: new_block
    | Discard(k: Key)               // get_hash_table, drop, brelse: free_block
    | Sync                          // sys_sync

  datatype Out = Done | Data(block: Block) | Failed | Refused

  function HeldKeys(held: multiset<Key>): set<Key> {
    set k | k in held
  }

  /** `k` is held already, or fewer than `n` blocks are. */
  predicate Room(s: Flat, k: Key, n: nat) {
    k.dev != 0 && (k in s.held || |HeldKeys(s.held)| < n)
  }

  ghost predicate Reads(s: Flat, k: Key, out: Out, broken: set<Key>) {
    out.Data? && (k !in broken ==> k in s.content && out.block == s.content[k])
  }

  /** One operation on a disk without a cache, with `n` blocks open at a time. Only blocks in `unread` may fail to be
      read, and not while they are held; blocks that are broken may read as anything; a discarded block may read as
      anything afterwards. */
  ghost predicate FlatStep(s: Flat, op: Op, out: Out, t: Flat, n: nat, broken: set<Key>, unread: set<Key>) {
    match op
    case Open(k) =>
      if !Room(s, k, n) then out == Refused && t == s
      else (out == Failed && t == s && k in unread && (k in s.held ==> k in broken)) ||
           (Reads(s, k, out, broken) && t == s.(held := s.held[k := s.held[k] + 1]))
    case Peek(k) => t == s && if k in s.held then Reads(s, k, out, broken) else out == Refused
    case Store(k, block) =>
      if k !in s.held then out == Refused && t == s else out == Done && t == s.(content := s.content[k := block])
    case Close(k) =>
      if k !in s.held then out == Refused && t == s else out == Done && t == s.(held := s.held[k := s.held[k] - 1])
    case Create(k, block) =>
      if !Room(s, k, n) || k in s.held then out == Refused && t == s
      else out == Done && t == s.(content := s.content[k := block])
    case Discard(k) =>
      if k.dev == 0 || k in s.held then out == Refused && t == s
      else out == Done && k in t.content && t == s.(content := s.content[k := t.content[k]])
    case Sync => out == Done && t == s
  }

  ghost predicate FlatRun(s: Flat, ops: seq<Op>, outs: seq<Out>, t: Flat, n: nat, broken: set<Key>, unread: set<Key>)
    decreases |ops|
  {
    if ops == [] then outs == [] && t == s
    else outs != [] && exists u: Flat ::
      FlatStep(s, ops[0], outs[0], u, n, broken, unread) && FlatRun(u, ops[1..], outs[1..], t, n, broken, unread)
  }

  lemma {:induction false} FlatRunMore(s: Flat, ops: seq<Op>, outs: seq<Out>, t: Flat, op: Op, out: Out, u: Flat,
                                           n: nat, broken: set<Key>, unread: set<Key>)
    requires FlatRun(s, ops, outs, t, n, broken, unread) && FlatStep(t, op, out, u, n, broken, unread)
    ensures FlatRun(s, ops + [op], outs + [out], u, n, broken, unread)
    decreases |ops|
  {
    var ops', outs' := ops + [op], outs + [out];
    if ops == [] {
      assert ops' == [op] && outs' == [out];
      assert FlatRun(u, ops'[1..], outs'[1..], u, n, broken, unread);
    } else {
      var v: Flat :| FlatStep(s, ops[0], outs[0], v, n, broken, unread) && FlatRun(v, ops[1..], outs[1..], t, n, broken, unread);
      FlatRunMore(v, ops[1..], outs[1..], t, op, out, u, n, broken, unread);
      assert ops'[1..] == ops[1..] + [op] && outs'[1..] == outs[1..] + [out];
    }
  }

  /** `op` with outcome `out` changes what is on the disk for block `k`. */
  predicate Changes(op: Op, out: Out, k: Key) {
    (op.Store? || op.Create? || op.Discard?) && op.k == k && out == Done
  }

  /** A block keeps its content until it is stored to, created or discarded. */
  lemma {:induction false} ContentStays(s: Flat, ops: seq<Op>, outs: seq<Out>, t: Flat, n: nat,
                                        broken: set<Key>, unread: set<Key>, k: Key)
    requires FlatRun(s, ops, outs, t, n, broken, unread) && k in s.content
    requires forall i | 0 <= i < |ops| && i < |outs| :: !Changes(ops[i], outs[i], k)
    ensures k in t.content && t.content[k] == s.content[k]
    decreases |ops|
  {
    if ops != [] {
      var u: Flat :| FlatStep(s, ops[0], outs[0], u, n, broken, unread) && FlatRun(u, ops[1..], outs[1..], t, n, broken, unread);
      assert !Changes(ops[0], outs[0], k);
      forall i | 0 <= i < |ops[1..]| && i < |outs[1..]| ensures !Changes(ops[1..][i], outs[1..][i], k) {
        assert !Changes(ops[i + 1], outs[i + 1], k);
      }
      ContentStays(u, ops[1..], outs[1..], t, n, broken, unread, k);
    }
  }

  function Opens(ops: seq<Op>, outs: seq<Out>, k: Key): nat {
    if ops == [] || outs == [] then 0
    else (if ops[0] == Op.Open(k) && outs[0].Data? then 1 else 0) + Opens(ops[1..], outs[1..], k)
  }

  function Closes(ops: seq<Op>, outs: seq<Out>, k: Key): nat {
    if ops == [] || outs == [] then 0
    else (if ops[0] == Op.Close(k) && outs[0] == Done then 1 else 0) + Closes(ops[1..], outs[1..], k)
  }

  /** A block is held as often as it was opened and has not been closed. */
  lemma {:induction false} HoldsCounted(s: Flat, ops: seq<Op>, outs: seq<Out>, t: Flat, n: nat,
                                        broken: set<Key>, unread: set<Key>, k: Key)
    requires FlatRun(s, ops, outs, t, n, broken, unread)
    ensures t.held[k] + Closes(ops, outs, k) == s.held[k] + Opens(ops, outs, k)
    decreases |ops|
  {
    if ops != [] {
      var u: Flat :| FlatStep(s, ops[0], outs[0], u, n, broken, unread) && FlatRun(u, ops[1..], outs[1..], t, n, broken, unread);
      HoldsCounted(u, ops[1..], outs[1..], t, n, broken, unread, k);
      hide FlatRun;
    }
  }

  /** What is read is what was stored last: a block is stored to, or created, others do as they like, and then it is opened or
      looked into. Only blocks that cannot be written may read differently. */
  lemma ReadsLatest(s: Flat, put: Op, s1: Flat, ops: seq<Op>, outs: seq<Out>, s2: Flat, get: Op, out: Out, t: Flat,
                    n: nat, broken: set<Key>, unread: set<Key>)
    requires (put.Store? || put.Create?) && FlatStep(s, put, Done, s1, n, broken, unread) && put.k !in broken
    requires FlatRun(s1, ops, outs, s2, n, broken, unread)
    requires forall i | 0 <= i < |ops| && i < |outs| :: !Changes(ops[i], outs[i], put.k)
    requires (get.Open? || get.Peek?) && get.k == put.k && FlatStep(s2, get, out, t, n, broken, unread)
    ensures out.Data? ==> out.block == put.block
  {
    ContentStays(s1, ops, outs, s2, n, broken, unread, put.k);
  }

  // ---------- The cache stands for the flat disk ----------

  /** Counts are exact, held blocks are in the cache, and everything reads as on the flat disk. */
  ghost predicate Rep(c: Cache, count: seq<nat>, s: Flat, broken: set<Key>) {
    CacheOk(c, broken) && Agree(c, s.content, broken) && HoldsOk(c.keys, c.uptodate, count, s.held, broken)
  }

  ghost predicate Agree(c: Cache, content: map<Key, Block>, broken: set<Key>)
    requires CacheOk(c, broken)
  {
    && (forall k: Key :: k in content)
    && (forall k: Key | k.dev != 0 && k !in broken :: Content(c, k) == content[k])
  }

  predicate HoldsOk(keys: seq<Key>, uptodate: seq<bool>, count: seq<nat>, held: multiset<Key>, broken: set<Key>) {
    && |count| == |keys| == |uptodate|
    && (forall b: nat | b < |count| :: count[b] == if keys[b].dev == 0 then 0 else held[keys[b]])
    && (forall k | k in held :: k.dev != 0 && InCache(keys, k))
    && (forall b: nat | b < |count| && count[b] > 0 && keys[b] !in broken :: uptodate[b])
  }

  lemma AgreeSame(c: Cache, d: Cache, content: map<Key, Block>, broken: set<Key>)
    requires CacheOk(c, broken) && CacheOk(d, broken) && Agree(c, content, broken) && Same(c, d, broken, {})
    ensures Agree(d, content, broken)
  {
    forall k: Key | k.dev != 0 && k !in broken ensures Content(d, k) == content[k] {
      assert Content(d, k) == Content(c, k);
    }
  }

  /** One block has been rewritten, or dropped. */
  lemma AgreeBut(c: Cache, d: Cache, content: map<Key, Block>, k: Key, block: Block, broken: set<Key>)
    requires CacheOk(c, broken) && CacheOk(d, broken) && Agree(c, content, broken) && Same(c, d, broken, {k})
    requires k.dev != 0 && k !in broken ==> Content(d, k) == block
    ensures Agree(d, content[k := block], broken)
  {
    forall j: Key | j.dev != 0 && j !in broken && j != k ensures Content(d, j) == content[j] {
      assert Content(d, j) == Content(c, j);
    }
  }

  /** The buffers that the clients remember are still those of their blocks. */
  ghost predicate HandlesOk(handles: map<Key, nat>, keys: seq<Key>, held: multiset<Key>) {
    && (forall k: Key :: k in handles <==> k in held)
    && (forall k | k in handles :: handles[k] < |keys| && keys[handles[k]] == k)
  }

  /** The blocks of the first `m` buffers. */
  function FirstKeys(keys: seq<Key>, m: nat): set<Key>
    requires m <= |keys|
  {
    if m == 0 then {} else FirstKeys(keys, m - 1) + {keys[m - 1]}
  }

  lemma {:induction false} FirstKeysCount(keys: seq<Key>, m: nat)
    requires m <= |keys| && UniqueKeys(keys, NULL) && forall b: nat | b < |keys| :: keys[b].dev != 0
    ensures |FirstKeys(keys, m)| == m
  {
    if m > 0 {
      FirstKeysCount(keys, m - 1);
      InFirstKeys(keys, m - 1, keys[m - 1]);
    }
  }

  lemma {:induction false} InFirstKeys(keys: seq<Key>, m: nat, k: Key)
    requires m <= |keys|
    ensures k in FirstKeys(keys, m) <==> exists b: nat | b < m :: keys[b] == k
  {
    if m > 0 { InFirstKeys(keys, m - 1, k); }
  }

  /** If there is room for a block, getblk finds it, or finds a buffer that nobody holds. */
  lemma RoomEnough(keys: seq<Key>, uptodate: seq<bool>, count: seq<nat>, s: Flat, broken: set<Key>, k: Key)
    requires UniqueKeys(keys, NULL) && HoldsOk(keys, uptodate, count, s.held, broken) && Room(s, k, |count|)
    ensures InCache(keys, k) || exists b: nat | b < |count| :: count[b] == 0
  {
    if forall b: nat | b < |count| :: count[b] != 0 {
      var n := |count|;
      FirstKeysCount(keys, n);
      forall j | j in FirstKeys(keys, n) ensures j in HeldKeys(s.held) {
        InFirstKeys(keys, n, j);
        var b: nat :| b < n && keys[b] == j;
        assert count[b] > 0;
      }
      Fewer(FirstKeys(keys, n), HeldKeys(s.held));
    }
  }

  /** What a getblk for `k` does to what is held. */
  lemma Taken(keys: seq<Key>, uptodate: seq<bool>, count: seq<nat>, s: Flat, handles: map<Key, nat>, k: Key,
              broken: set<Key>, ring: seq<nat>, g: nat, keys': seq<Key>)
    requires UniqueKeys(keys, NULL) && UniqueKeys(keys', NULL) && HoldsOk(keys, uptodate, count, s.held, broken)
    requires HandlesOk(handles, keys, s.held) && Room(s, k, |count|) && Gotten(keys, count, ring, k, g, keys')
    ensures forall a: nat | a < |count| && count[a] > 0 :: keys'[a] == keys[a]
    ensures count[g] == s.held[k] && (!InCache(keys, k) ==> count[g] == 0)
    ensures forall a: nat | a < |count| && a != g :: keys'[a] == keys[a] && keys'[a] != k
    ensures forall j: Key | j in s.held || j == k :: InCache(keys', j)
    ensures HandlesOk(handles, keys', s.held)
  {
    RoomEnough(keys, uptodate, count, s, broken, k);
    HeldStay(keys, count, ring, k, g, keys');
    assert keys'[g] == k;
    forall j: Key | j in s.held ensures InCache(keys', j) {
      var a: nat :| a < |count| && keys[a] == j;
      assert count[a] > 0 && keys'[a] == j;
    }
    if k in s.held {
      var a: nat :| a < |count| && keys[a] == k;
      assert keys'[a] == k && a == g;
    } else if InCache(keys, k) {
      assert keys == keys';
    } else {
      assert count[g] == 0;
    }
  }

  /** bread gave out a buffer, or its read failed. */
  lemma OpenRep(c: Cache, count: seq<nat>, s: Flat, handles: map<Key, nat>, k: Key, broken: set<Key>, unread: set<Key>,
                ring: seq<nat>, b: int, d: Cache, count': seq<nat>)
    requires Rep(c, count, s, broken) && HandlesOk(handles, c.keys, s.held) && Room(s, k, |count|)
    requires CacheOk(d, broken) && Same(c, d, broken, {}) && Opened(c, count, ring, k, b, d, count', broken, unread)
    ensures b == NULL ==> Rep(d, count', s, broken) && HandlesOk(handles, d.keys, s.held)
                          && k in unread && (k in s.held ==> k in broken)
    ensures b != NULL ==> 0 <= b && Rep(d, count', s.(held := s.held[k := s.held[k] + 1]), broken)
                          && HandlesOk(handles[k := b], d.keys, s.held[k := s.held[k] + 1])
  {
    hide Agree, Same, Good, Gotten, UniqueKeys;
    AgreeSame(c, d, s.content, broken);
    var g: nat :| OpenedBy(c, count, ring, k, g, b, d, count', broken, unread);
    if b == NULL && k in s.held { HeldIsRead(c.keys, c.uptodate, count, s.held, k, broken, ring, g, d.keys); }
    OpenedHolds(c.keys, c.uptodate, count, s, handles, k, broken, ring, g, b, d.keys, d.uptodate);
  }

  /** A held block is in the cache and up to date. */
  lemma HeldIsRead(keys: seq<Key>, uptodate: seq<bool>, count: seq<nat>, held: multiset<Key>, k: Key,
                   broken: set<Key>, ring: seq<nat>, g: nat, keys': seq<Key>)
    requires UniqueKeys(keys, NULL) && HoldsOk(keys, uptodate, count, held, broken) && Gotten(keys, count, ring, k, g, keys')
    requires g < |uptodate| && !(InCache(keys, k) && uptodate[g]) && k in held
    ensures k in broken
  {
    var a: nat :| a < |count| && keys[a] == k;
    assert count[a] > 0;
  }

  lemma OpenedHolds(keys: seq<Key>, uptodate: seq<bool>, count: seq<nat>, s: Flat, handles: map<Key, nat>, k: Key,
                    broken: set<Key>, ring: seq<nat>, g: nat, b: int, keys': seq<Key>, uptodate': seq<bool>)
    requires UniqueKeys(keys, NULL) && UniqueKeys(keys', NULL) && HoldsOk(keys, uptodate, count, s.held, broken)
    requires HandlesOk(handles, keys, s.held) && Room(s, k, |count|) && Gotten(keys, count, ring, k, g, keys')
    requires |uptodate'| == |keys| && g < |keys|
    requires (b == g ==> uptodate'[g]) && (b == NULL && InCache(keys, k) ==> !uptodate[g])
    requires forall a: nat | a < |keys| && a != g && keys'[a] !in broken :: uptodate'[a] == uptodate[a]
    ensures b == NULL ==> HoldsOk(keys', uptodate', count, s.held, broken) && HandlesOk(handles, keys', s.held)
    ensures b == g ==> HoldsOk(keys', uptodate', count[g := count[g] + 1], s.held[k := s.held[k] + 1], broken)
                       && HandlesOk(handles[k := g], keys', s.held[k := s.held[k] + 1])
  {
    hide Gotten, UniqueKeys, HandlesOk, InCache;
    Taken(keys, uptodate, count, s, handles, k, broken, ring, g, keys');
    GottenKey(keys, count, ring, k, g, keys');
    if b == g {
      HeldMore(keys, uptodate, count, s.held, k, broken, g, keys', uptodate');
      HandleMore(handles, keys', s.held, k, g);
    } else if b == NULL {
      HeldAsBefore(keys, uptodate, count, s.held, k, broken, g, keys', uptodate');
    }
  }

  /** The buffer `g` now stands for `k`, and is held once more. */
  lemma HeldMore(keys: seq<Key>, uptodate: seq<bool>, count: seq<nat>, held: multiset<Key>, k: Key,
                 broken: set<Key>, g: nat, keys': seq<Key>, uptodate': seq<bool>)
    requires HoldsOk(keys, uptodate, count, held, broken) && k.dev != 0
    requires |keys| == |keys'| == |uptodate'| && g < |keys| && keys'[g] == k && count[g] == held[k] && uptodate'[g]
    requires forall a: nat | a < |count| && a != g :: keys'[a] == keys[a] && keys'[a] != k
    requires forall a: nat | a < |keys| && a != g && keys'[a] !in broken :: uptodate'[a] == uptodate[a]
    requires forall j: Key | j in held || j == k :: InCache(keys', j)
    ensures HoldsOk(keys', uptodate', count[g := count[g] + 1], held[k := held[k] + 1], broken)
  {
    hide InCache;
  }

  /** The buffer `g` now stands for `k`, but the holds are as they were. */
  lemma HeldAsBefore(keys: seq<Key>, uptodate: seq<bool>, count: seq<nat>, held: multiset<Key>, k: Key,
                     broken: set<Key>, g: nat, keys': seq<Key>, uptodate': seq<bool>)
    requires HoldsOk(keys, uptodate, count, held, broken) && k.dev != 0
    requires |keys| == |keys'| == |uptodate'| && g < |keys| && keys'[g] == k && count[g] == held[k]
    requires count[g] > 0 ==> k == keys[g] && !uptodate[g]
    requires forall a: nat | a < |count| && a != g :: keys'[a] == keys[a] && keys'[a] != k
    requires forall a: nat | a < |keys| && a != g && keys'[a] !in broken :: uptodate'[a] == uptodate[a]
    requires forall j: Key | j in held || j == k :: InCache(keys', j)
    ensures HoldsOk(keys', uptodate', count, held, broken)
  {
    hide InCache;
  }

  lemma HandleMore(handles: map<Key, nat>, keys: seq<Key>, held: multiset<Key>, k: Key, g: nat)
    requires HandlesOk(handles, keys, held) && g < |keys| && keys[g] == k
    ensures HandlesOk(handles[k := g], keys, held[k := held[k] + 1])
  {
  }

  lemma GottenKey(keys: seq<Key>, count: seq<nat>, ring: seq<nat>, k: Key, g: nat, keys': seq<Key>)
    requires Gotten(keys, count, ring, k, g, keys')
    ensures g < |keys'| == |keys| && keys'[g] == k
  {
  }

  lemma CloseRep(c: Cache, count: seq<nat>, s: Flat, handles: map<Key, nat>, k: Key, broken: set<Key>)
    requires Rep(c, count, s, broken) && HandlesOk(handles, c.keys, s.held) && k in s.held
    ensures handles[k] < |count| && count[handles[k]] > 0
    ensures var held, b := s.held[k := s.held[k] - 1], handles[k];
            && Rep(c, count[b := count[b] - 1], s.(held := held), broken)
            && HandlesOk(if s.held[k] == 1 then handles - {k} else handles, c.keys, held)
  {
    hide Agree, Good;
  }

  lemma StoreRep(c: Cache, count: seq<nat>, s: Flat, handles: map<Key, nat>, k: Key, block: Block, broken: set<Key>)
    requires Rep(c, count, s, broken) && HandlesOk(handles, c.keys, s.held) && k in s.held
    ensures handles[k] < |c.keys| == |c.dirt| == |c.data| && count[handles[k]] > 0 && k.dev != 0
    ensures Rep(c.(data := c.data[handles[k] := block], dirt := c.dirt[handles[k] := true]), count,
              s.(content := s.content[k := block]), broken)
  {
    hide Agree;
    var b := handles[k];
    var d := c.(data := c.data[b := block], dirt := c.dirt[b := true]);
    assert c.uptodate[b := c.uptodate[b]] == c.uptodate;
    Stored(c, b, block, c.uptodate[b], broken);
    AgreeBut(c, d, s.content, k, block, broken);
  }

  /** getblk, fill, release: nobody else holds the block. */
  lemma CreateRep(c: Cache, count: seq<nat>, s: Flat, handles: map<Key, nat>, k: Key, block: Block, broken: set<Key>,
                  ring: seq<nat>, g: nat, d: Cache)
    requires Rep(c, count, s, broken) && HandlesOk(handles, c.keys, s.held) && Room(s, k, |count|) && k !in s.held
    requires CacheOk(d, broken) && Same(c, d, broken, {}) && Gotten(c.keys, count, ring, k, g, d.keys)
    requires forall a: nat | a < |c.keys| && a != g && d.keys[a] !in broken :: d.uptodate[a] == c.uptodate[a]
    ensures count[g] == 0 && HandlesOk(handles, d.keys, s.held)
    ensures Rep(d.(data := d.data[g := block], dirt := d.dirt[g := true], uptodate := d.uptodate[g := true]), count,
              s.(content := s.content[k := block]), broken)
  {
    hide Agree, Same, Good, Gotten, UniqueKeys;
    Taken(c.keys, c.uptodate, count, s, handles, k, broken, ring, g, d.keys);
    GottenKey(c.keys, count, ring, k, g, d.keys);
    hide InCache;
    var e := d.(data := d.data[g := block], dirt := d.dirt[g := true], uptodate := d.uptodate[g := true]);
    AgreeSame(c, d, s.content, broken);
    Stored(d, g, block, true, broken);
    AgreeBut(d, e, s.content, k, block, broken);
  }

  lemma DiscardRep(c: Cache, count: seq<nat>, s: Flat, b: nat, broken: set<Key>)
    requires Rep(c, count, s, broken) && b < |count| && c.keys[b].dev != 0 && count[b] == 0
    ensures var d, k := c.(dirt := c.dirt[b := false], uptodate := c.uptodate[b := false]), c.keys[b];
            Rep(d, count, s.(content := s.content[k := c.disk[k]]), broken)
  {
    hide Agree;
    var d, k := c.(dirt := c.dirt[b := false], uptodate := c.uptodate[b := false]), c.keys[b];
    Dropped(c, b, broken);
    AgreeBut(c, d, s.content, k, c.disk[k], broken);
  }

  lemma PeekRep(c: Cache, count: seq<nat>, s: Flat, handles: map<Key, nat>, k: Key, broken: set<Key>)
    requires Rep(c, count, s, broken) && HandlesOk(handles, c.keys, s.held) && k in s.held
    ensures handles[k] < |c.data| && Reads(s, k, Data(c.data[handles[k]]), broken)
  {
    var b := handles[k];
    if k !in broken { ContentShown(c, b, broken); }
  }

  lemma OpenStep(c: Cache, count: seq<nat>, s: Flat, handles: map<Key, nat>, k: Key, broken: set<Key>, unread: set<Key>,
                 ring: seq<nat>, b: int, d: Cache, count': seq<nat>)
    requires Rep(c, count, s, broken) && HandlesOk(handles, c.keys, s.held) && Room(s, k, |count|)
    requires CacheOk(d, broken) && Same(c, d, broken, {}) && Opened(c, count, ring, k, b, d, count', broken, unread)
    ensures b == NULL ==> Rep(d, count', s, broken) && HandlesOk(handles, d.keys, s.held)
                          && FlatStep(s, Op.Open(k), Failed, s, |count|, broken, unread)
    ensures b != NULL ==> var t := s.(held := s.held[k := s.held[k] + 1]);
              && 0 <= b < |d.data| && Rep(d, count', t, broken) && HandlesOk(handles[k := b], d.keys, t.held)
              && FlatStep(s, Op.Open(k), Data(d.data[b]), t, |count|, broken, unread)
  {
    hide Rep, HandlesOk, Opened, Room;
    OpenRep(c, count, s, handles, k, broken, unread, ring, b, d, count');
    if b != NULL {
      PeekRep(d, count', s.(held := s.held[k := s.held[k] + 1]), handles[k := b], k, broken);
    }
  }

  lemma DiscardStep(c: Cache, count: seq<nat>, s: Flat, k: Key, broken: set<Key>, d: Cache, count': seq<nat>)
    returns (t: Flat)
    requires Rep(c, count, s, broken) && k.dev != 0 && k !in s.held
    requires |count| == |c.keys| == |c.uptodate| == |c.dirt| && Forgot(c, count, k, d, count')
    ensures k in t.content && t == s.(content := s.content[k := t.content[k]]) && Rep(d, count', t, broken)
  {
    hide Content;
    t := s;
    if b: nat :| b < |count| && c.keys[b] == k {
      DiscardRep(c, count, s, b, broken);
      t := s.(content := s.content[k := c.disk[k]]);
    } else {
      assert s.content[k := s.content[k]] == s.content;
    }
  }

  lemma RefuseStep(s: Flat, k: Key, n: nat, broken: set<Key>, unread: set<Key>)
    requires !Room(s, k, n)
    ensures FlatStep(s, Op.Open(k), Refused, s, n, broken, unread)
  {
  }

  lemma RepOk(c: Cache, count: seq<nat>, s: Flat, broken: set<Key>)
    requires Rep(c, count, s, broken)
    ensures CacheOk(c, broken) && |count| == |c.keys|
  {
  }

  /** The clients of one cache. */
  class Clients {
    const cache: Buffers
    var handles: map<Key, nat>    // the buffers they remember
    ghost var flat: Flat

    ghost predicate Valid()
      reads this, cache, cache.Repr()
    {
      && this !in cache.Repr() && cache.Valid() && Rep(cache.Blocks(), cache.count[..], flat, cache.broken)
      && HandlesOk(handles, cache.key[..], flat.held)
    }

    constructor (n: nat, disk: map<Key, Block>, broken: set<Key>, unread: set<Key>)
      requires n >= 2 && forall k: Key :: k in disk
      ensures Valid() && fresh(cache) && fresh(cache.Repr()) && cache.key.Length == n
      ensures cache.broken == broken && cache.unread == unread
      ensures flat == Flat(disk, multiset{})
    {
      cache := new Buffers(n, disk, broken, unread);
      handles := map[];
      flat := Flat(disk, multiset{});
      new;
      hide Indexed;
      forall k: Key | k.dev != 0 ensures Content(cache.Blocks(), k) == disk[k] {
        ContentHidden(cache.Blocks(), k);
      }
    }

    method Open(k: Key) returns (out: Out)
      requires Valid()
      modifies this, cache.Repr()
      ensures Valid() && FlatStep(old(flat), Op.Open(k), out, flat, cache.key.Length, cache.broken, cache.unread)
    {
      hide Indexed, Rep, HandlesOk, Same, Opened, FlatStep, Room;
      HandleKeys();
      if k.dev == 0 || (k !in handles && |handles.Keys| >= cache.key.Length) {
        RefuseStep(flat, k, cache.key.Length, cache.broken, cache.unread);
        return Refused;
      }
      ghost var c, count, ring, s := cache.Blocks(), cache.count[..], cache.ring, flat;
      RepOk(c, count, s, cache.broken);
      var b := cache.Bread(k);
      OpenStep(c, count, s, handles, k, cache.broken, cache.unread, ring, b, cache.Blocks(), cache.count[..]);
      if b == NULL { return Failed; }
      handles := handles[k := b];
      flat := s.(held := s.held[k := s.held[k] + 1]);
      return Data(cache.data[b]);
    }

    lemma HandleKeys()
      requires Valid()
      ensures handles.Keys == HeldKeys(flat.held) && |cache.count[..]| == cache.key.Length
      ensures forall k: Key :: k in handles <==> k in flat.held
      ensures forall k: Key :: Room(flat, k, cache.key.Length) <==>
                               k.dev != 0 && (k in handles || |handles.Keys| < cache.key.Length)
    {
    }

    method Peek(k: Key) returns (out: Out)
      requires Valid()
      ensures FlatStep(flat, Op.Peek(k), out, flat, cache.key.Length, cache.broken, cache.unread)
    {
      HandleKeys();
      if k !in handles { return Refused; }
      PeekRep(cache.Blocks(), cache.count[..], flat, handles, k, cache.broken);
      return Data(cache.data[handles[k]]);
    }

    method Store(k: Key, block: Block) returns (out: Out)
      requires Valid()
      modifies this, cache.Repr()
      ensures Valid() && FlatStep(old(flat), Op.Store(k, block), out, flat, cache.key.Length, cache.broken, cache.unread)
    {
      hide Indexed, Agree, HoldsOk, HandlesOk, Good;
      HandleKeys();
      if k !in handles { return Refused; }
      ghost var c := cache.Blocks();
      StoreRep(c, cache.count[..], flat, handles, k, block, cache.broken);
      var b := handles[k];
      cache.data[b] := block;
      cache.dirt[b] := true;
      flat := flat.(content := flat.content[k := block]);
      assert cache.Blocks() == c.(data := c.data[b := block], dirt := c.dirt[b := true]);
      return Done;
    }

    method Close(k: Key) returns (out: Out)
      requires Valid()
      modifies this, cache.Repr()
      ensures Valid() && FlatStep(old(flat), Op.Close(k), out, flat, cache.key.Length, cache.broken, cache.unread)
    {
      hide Indexed, CacheOk, Agree, HoldsOk, HandlesOk;
      HandleKeys();
      if k !in handles { return Refused; }
      CloseRep(cache.Blocks(), cache.count[..], flat, handles, k, cache.broken);
      var b := handles[k];
      ghost var left := flat.held[k] - 1;
      LastHold(k);
      if cache.count[b] == 1 { handles := handles - {k}; }
      cache.Brelse(b);
      flat := flat.(held := flat.held[k := left]);
      return Done;
    }

    lemma LastHold(k: Key)
      requires Valid() && k in handles
      ensures handles[k] < cache.count.Length && cache.count[handles[k]] == flat.held[k]
    {
    }

    method Create(k: Key, block: Block) returns (out: Out)
      requires Valid()
      modifies this, cache.Repr()
      ensures Valid() && FlatStep(old(flat), Op.Create(k, block), out, flat, cache.key.Length, cache.broken, cache.unread)
    {
      hide Indexed, Rep, HandlesOk, Same, Gotten, CacheOk, Without;
      HandleKeys();
      if k.dev == 0 || k in handles || |handles.Keys| >= cache.key.Length { return Refused; }
      ghost var c, count, ring, s := cache.Blocks(), cache.count[..], cache.ring, flat;
      RepOk(c, count, s, cache.broken);
      var g := cache.GetBlk(k);
      ghost var d := cache.Blocks();
      CreateRep(c, count, s, handles, k, block, cache.broken, ring, g, d);
      cache.Fill(g, block);
      flat := s.(content := s.content[k := block]);
      assert cache.count[..] == count;
      RepOk(cache.Blocks(), cache.count[..], flat, cache.broken);
      return Done;
    }

    method Discard(k: Key) returns (out: Out)
      requires Valid()
      modifies this, cache.Repr()
      ensures Valid() && FlatStep(old(flat), Op.Discard(k), out, flat, cache.key.Length, cache.broken, cache.unread)
    {
      hide Indexed, HandlesOk, CacheOk, Rep, Forgot;
      HandleKeys();
      if k.dev == 0 || k in handles { return Refused; }
      ghost var c, count, s := cache.Blocks(), cache.count[..], flat;
      RepOk(c, count, s, cache.broken);
      cache.Forget(k);
      flat := DiscardStep(c, count, s, k, cache.broken, cache.Blocks(), cache.count[..]);
      RepOk(cache.Blocks(), cache.count[..], flat, cache.broken);
      return Done;
    }

    /** The disk is brought up to date; nobody sees a difference. */
    method Sync() returns (out: Out)
      requires Valid()
      modifies this, cache.Repr()
      ensures Valid() && FlatStep(old(flat), Op.Sync, out, flat, cache.key.Length, cache.broken, cache.unread)
      ensures forall k: Key | k.dev != 0 && k !in cache.broken :: cache.disk[k] == flat.content[k]
    {
      hide Indexed, HandlesOk, Content;
      ghost var c := cache.Blocks();
      cache.SysSync();
      AgreeSame(c, cache.Blocks(), flat.content, cache.broken);
      return Done;
    }

    method Do(op: Op) returns (out: Out)
      requires Valid()
      modifies this, cache.Repr()
      ensures Valid() && FlatStep(old(flat), op, out, flat, cache.key.Length, cache.broken, cache.unread)
    {
      hide Valid, FlatStep;
      match op {
        case Open(k) => out := Open(k);
        case Peek(k) => out := Peek(k);
        case Store(k, block) => out := Store(k, block);
        case Close(k) => out := Close(k);
        case Create(k, block) => out := Create(k, block);
        case Discard(k) => out := Discard(k);
        case Sync => out := Sync();
      }
    }

    /** Every run of the clients is a run on a disk without a cache. */
    method Run(ops: seq<Op>) returns (outs: seq<Out>)
      requires Valid()
      modifies this, cache.Repr()
      ensures Valid() && FlatRun(old(flat), ops, outs, flat, cache.key.Length, cache.broken, cache.unread)
    {
      hide Valid, FlatStep;
      outs := [];
      for i := 0 to |ops|
        invariant Valid() && FlatRun(old(flat), ops[..i], outs, flat, cache.key.Length, cache.broken, cache.unread)
      {
        ghost var s := flat;
        var out := Do(ops[i]);
        FlatRunMore(old(flat), ops[..i], outs, s, ops[i], out, flat, cache.key.Length, cache.broken, cache.unread);
        outs := outs + [out];
        assert ops[..i] + [ops[i]] == ops[..i + 1];
      }
      assert ops[..|ops|] == ops;
    }
  }
}
