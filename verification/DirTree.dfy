/** find_entry and add_entry (fs/namei.c) on the block trees: a directory is a file of 16-byte entries, 64 to a block. A
    directory has no holes. A block that cannot be read is skipped; where the source then goes on with a null buffer pointer,
    the operation ends. */
module DirTree {
  import opened FsState
  import opened FsSteps
  import opened FsFiles
  import opened FileTree
  import opened Dirs

  const PER_BLOCK := 64

  // ---------- Entries in the file ----------

  function EntryAt(s: Fs, n: nat, i: nat): (e: Entry)
    requires Shape(s) && n < |s.tree| && s.tree[n] && 16 * i + 16 <= LIMIT
    ensures EntryOk(e)
  {
    var low: int, high: int := ByteAt(s, n, 16 * i), ByteAt(s, n, 16 * i + 1);
    Entry(low + 256 * high, seq<Byte>(NAME_LEN, j requires 0 <= j < NAME_LEN => ByteAt(s, n, 16 * i + 2 + j)))
  }

  ghost function Entries(s: Fs, n: nat, count: nat): (es: seq<Entry>)
    requires Shape(s) && n < |s.tree| && s.tree[n] && 16 * count <= LIMIT
    ensures |es| == count && EntriesOk(es)
  {
    seq(count, i requires 0 <= i < count => EntryAt(s, n, i))
  }

  /** An entry as it lies in its block. */
  function EntryIn(b: Block, o: nat): (e: Entry)
    requires o < PER_BLOCK
    ensures EntryOk(e)
  {
    var low: int, high: int := b[16 * o], b[16 * o + 1];
    Entry(low + 256 * high, b[16 * o + 2..16 * o + 16])
  }

  lemma EntryInBlock(s: Fs, n: nat, i: nat)
    requires Shape(s) && n < |s.tree| && s.tree[n] && 16 * i + 16 <= LIMIT
    requires 0 < At(s, Place(n, PosOf(i / PER_BLOCK))) < s.nzones
    ensures EntryIn(s.blocks[At(s, Place(n, PosOf(i / PER_BLOCK)))], i % PER_BLOCK) == EntryAt(s, n, i)
  {
    hide At, PosOf;
    var z := At(s, Place(n, PosOf(i / PER_BLOCK)));
    assert 16 * i / BLOCK_SIZE == i / PER_BLOCK && 16 * i % BLOCK_SIZE == 16 * (i % PER_BLOCK);
    BlockBytes(s, n, 16 * i, 16);
    var e, f := EntryIn(s.blocks[z], i % PER_BLOCK), EntryAt(s, n, i);
    forall j | 0 <= j < NAME_LEN ensures e.name[j] == f.name[j] {
      assert e.name[j] == s.blocks[z][16 * (i % PER_BLOCK) + 2 + j];
    }
  }

  /** The bytes of an entry. */
  function Raw(e: Entry): (r: seq<Byte>)
    requires EntryOk(e)
    ensures |r| == 16
  {
    [e.inode % 256, e.inode / 256] + e.name
  }

  /** Writing the bytes of an entry changes this entry. */
  lemma StoredEntry(s: Fs, s': Fs, n: nat, count: nat, k: nat, e: Entry)
    requires EntryOk(e) && 16 * count <= LIMIT && k <= count && 16 * k + 16 <= LIMIT
    requires Stored(s, s', n, 16 * k, Raw(e))
    ensures Entries(s', n, if k < count then count else count + 1) == Put(Entries(s, n, count), k, e)
  {
    var m := if k < count then count else count + 1;
    var es, t := Entries(s, n, count), Entries(s', n, m);
    forall i | 0 <= i < m ensures t[i] == if i == k then e else es[i] {
      var f := EntryAt(s', n, i);
      assert forall p | 16 * i <= p < 16 * i + 16 ::
        ByteAt(s', n, p) == if i == k then Raw(e)[p - 16 * k] else ByteAt(s, n, p);
      if i == k {
        forall j | 0 <= j < NAME_LEN ensures f.name[j] == e.name[j] {
          assert Raw(e)[2 + j] == e.name[j];
        }
        assert Raw(e)[0] == e.inode % 256 && Raw(e)[1] == e.inode / 256;
      } else {
        assert f.name == es[i].name;
      }
    }
  }

  // ---------- The directory's blocks ----------

  /** The first `count` entries lie in blocks that exist; so does the first block. */
  ghost predicate Whole(s: Fs, n: nat, count: nat)
    requires Shape(s) && n < |s.tree| && s.tree[n]
  {
    && 16 * count <= LIMIT && At(s, Place(n, PosOf(0))) != 0
    && (forall b: nat | b < MAX_BLOCKS && PER_BLOCK * b < count :: At(s, Place(n, PosOf(b))) != 0)
  }

  ghost predicate IsDir(fs: FileSystem, n: nat)
    reads fs, fs.zone, fs.tree, fs.size, fs.blocks, fs.bits
  {
    && fs.Valid() && fs.IsFile(n) && fs.size[n] % 16 == 0 && Whole(fs.St(), n, fs.size[n] / 16)
  }

  ghost function EntriesOf(fs: FileSystem, n: nat): (es: seq<Entry>)
    requires IsDir(fs, n)
    reads fs, fs.zone, fs.tree, fs.size, fs.blocks, fs.bits
    ensures EntriesOk(es)
  {
    Entries(fs.St(), n, fs.size[n] / 16)
  }

  lemma DirFacts(fs: FileSystem, n: nat)
    requires IsDir(fs, n)
    ensures fs.Valid() && fs.IsFile(n) && Shape(fs.St()) && n < |fs.St().tree| && fs.St().tree[n]
    ensures n < fs.size.Length && fs.size[n] % 16 == 0 && fs.size[n] <= LIMIT && LIMIT % 16 == 0
    ensures Whole(fs.St(), n, fs.size[n] / 16) && |EntriesOf(fs, n)| == fs.size[n] / 16
    ensures EntriesOf(fs, n) == Entries(fs.St(), n, fs.size[n] / 16)
    ensures PosOf(0) == Zone(0) && n < fs.zone.Length && |fs.zone[n]| == 9
    ensures 0 < fs.zone[n][0] == At(fs.St(), Place(n, PosOf(0)))
  {
  }

  lemma EntryOf(fs: FileSystem, n: nat, k: nat)
    requires IsDir(fs, n) && k < |EntriesOf(fs, n)|
    ensures 16 * k + 16 <= LIMIT && EntryAt(fs.St(), n, k) == EntriesOf(fs, n)[k]
  {
  }

  lemma NowDir(fs: FileSystem, n: nat, es: seq<Entry>)
    requires fs.Valid() && fs.IsFile(n) && fs.size[n] % 16 == 0 && Whole(fs.St(), n, fs.size[n] / 16)
    requires es == Entries(fs.St(), n, fs.size[n] / 16)
    ensures IsDir(fs, n) && EntriesOf(fs, n) == es
  {
  }

  lemma ZoneOf(s: Fs, n: nat, b: nat)
    requires TreeInv(s) && s.dead == {} && n < |s.tree| && s.tree[n] && b < MAX_BLOCKS
    ensures At(s, Place(n, PosOf(b))) < s.nzones == |s.blocks|
  {
    assert PlaceOk(s, Place(n, PosOf(b)));
    if At(s, Place(n, PosOf(b))) != 0 { assert OwnerOk(s, At(s, Place(n, PosOf(b)))); }
  }

  /** The blocks of all entries up to number `k` can be read. */
  ghost predicate Sees(s: Fs, n: nat, k: nat)
    requires Shape(s) && n < |s.tree| && s.tree[n]
  {
    forall p | 0 <= p <= 16 * k :: !Blocked(s, n, p)
  }

  lemma SeesNext(s: Fs, n: nat, k: nat)
    requires Shape(s) && n < |s.tree| && s.tree[n] && 16 * k < LIMIT
    ensures k == 0 ==> (Sees(s, n, 0) <==> !Blocked(s, n, 0))
    ensures k > 0 ==> (Sees(s, n, k) <==> Sees(s, n, k - 1) && !Blocked(s, n, 16 * k))
    ensures k > 0 && k % PER_BLOCK != 0 && Sees(s, n, k - 1) ==> !Blocked(s, n, 16 * k)
  {
    hide Blocked;
    if k > 0 {
      forall p | 16 * (k - 1) <= p <= 16 * k
        ensures p == 16 * k || (Blocked(s, n, p) <==> Blocked(s, n, 16 * (k - 1)))
      {
        if p < 16 * k {
          EntryBytes(k - 1, p);
          BlockedByBlock(s, n, p, 16 * (k - 1));
        }
      }
      if k % PER_BLOCK != 0 {
        SameBlockNext(k);
        BlockedByBlock(s, n, 16 * k, 16 * (k - 1));
      }
    }
  }

  lemma EntryBytes(k: nat, p: nat)
    requires 16 * k <= p < 16 * k + 16
    ensures p / BLOCK_SIZE == 16 * k / BLOCK_SIZE == k / PER_BLOCK
  {
  }

  lemma SameBlockNext(k: nat)
    requires k > 0 && k % PER_BLOCK != 0
    ensures 16 * k / BLOCK_SIZE == 16 * (k - 1) / BLOCK_SIZE
  {
  }

  lemma ReadableSees(s: Fs, n: nat, k: nat)
    requires TreeInv(s) && s.dead == {} && n < |s.tree| && s.tree[n] && Readable(s, n)
    ensures Sees(s, n, k)
  {
    forall p | 0 <= p <= 16 * k ensures !Blocked(s, n, p) {
      if p < LIMIT { ReadableByte(s, n, p); }
    }
  }

  /** The turn of the search loop at a block boundary. */
  method NextBlock(fs: FileSystem, n: nat, i: nat, here: nat) returns (z: nat, ok: bool)
    requires IsDir(fs, n) && i < fs.size[n] / 16
    requires i % PER_BLOCK != 0 ==> here == At(fs.St(), Place(n, PosOf(i / PER_BLOCK)))
    requires i == 0 ==> here == At(fs.St(), Place(n, PosOf(0)))
    requires i == 0 || i % PER_BLOCK != 0 ==> !Blocked(fs.St(), n, 16 * i)
    modifies fs.zone, fs.blocks, fs.bits, fs`owner, fs`leaked, fs`bad
    ensures IsDir(fs, n) && fs.St() == old(fs.St()) && (ok <==> !Blocked(fs.St(), n, 16 * i))
    ensures ok ==> 0 < z == At(fs.St(), Place(n, PosOf(i / PER_BLOCK))) < |fs.St().blocks| == fs.blocks.Length
    ensures ok ==> EntryIn(fs.blocks[z], i % PER_BLOCK) == EntryAt(fs.St(), n, i)
  {
    ghost var s := fs.St();
    DirFacts(fs, n);
    BlockHere(s, n, i, fs.size[n] / 16);
    hide *;
    EntryBlock(i);
    z, ok := here, true;
    if i > 0 && i % PER_BLOCK == 0 {
      z := fs.BmapOrCreate(n, i / PER_BLOCK, false);
      BlockThere(s, n, i, z);
      if z == 0 { return z, false; }
      ok := fs.Bread(z);
    }
    ZoneOf(s, n, i / PER_BLOCK);
    EntryInBlock(s, n, i);
  }

  lemma BlockHere(s: Fs, n: nat, i: nat, count: nat)
    requires Shape(s) && n < |s.tree| && s.tree[n] && Whole(s, n, count) && i < count
    ensures 16 * i + 16 <= LIMIT && i / PER_BLOCK < MAX_BLOCKS && At(s, Place(n, PosOf(i / PER_BLOCK))) != 0
    ensures i == 0 ==> i / PER_BLOCK == 0
  {
    EntryBlock(i);
  }

  lemma BlockThere(s: Fs, n: nat, i: nat, z: nat)
    requires Shape(s) && n < |s.tree| && s.tree[n] && 16 * i + 16 <= LIMIT && i / PER_BLOCK < MAX_BLOCKS
    requires At(s, Place(n, PosOf(i / PER_BLOCK))) != 0 && Found(s, s, Place(n, PosOf(i / PER_BLOCK)), z, false)
    ensures if z == 0 then Blocked(s, n, 16 * i)
            else z == At(s, Place(n, PosOf(i / PER_BLOCK))) && (z in s.bad <==> Blocked(s, n, 16 * i))
  {
    EntryBytes(i, 16 * i);
  }

  /** The entry for a name, in zone `z`. A block that cannot be read is skipped. When entries follow, the source looks at
      its null buffer pointer (`wild`). When the block was the last one, or the first, the name is not found. */
  method FindEntry(fs: FileSystem, n: nat, name: seq<Byte>) returns (z: nat, k: nat, found: bool, wild: bool)
    requires IsDir(fs, n)
    modifies fs.zone, fs.blocks, fs.bits, fs`owner, fs`leaked, fs`bad
    ensures IsDir(fs, n) && fs.St() == old(fs.St()) && EntriesOf(fs, n) == old(EntriesOf(fs, n))
    ensures Searched(fs.St(), n, EntriesOf(fs, n), name, k, found, wild) && (wild ==> !found)
    ensures found ==> 0 < z == At(fs.St(), Place(n, PosOf(k / PER_BLOCK)))
    ensures found ==> FirstWith(EntriesOf(fs, n), name, k)
    ensures !found && name != [] && Sees(fs.St(), n, |EntriesOf(fs, n)|) ==> NoneWith(EntriesOf(fs, n), name)
  {
    SearchedNames(fs, n, name);
    ghost var s := fs.St();
    DirFacts(fs, n);
    var entries := fs.size[n] / 16;
    ghost var es := EntriesOf(fs, n);
    hide TreeInv, At, PosOf, EntryAt, EntryIn, ByteAt, Whole, Blocked, IsDir, EntriesOf, Entries, Searching, Searched, Shape;
    z, k, found, wild := 0, 0, false, false;
    if name == [] {
      SearchStart(s, n, es, name);
      return;
    }
    z := fs.zone[n][0];
    FirstBlock(s, n, z);
    SearchStart(s, n, es, name);
    var ok := fs.Bread(z);
    if !ok { return; }
    while k < entries
      invariant entries == |es| && fs.St() == s && IsDir(fs, n) && es == EntriesOf(fs, n) && !found && !wild
      invariant ok ==> k <= entries && Searching(s, n, es, name, k)
      invariant ok && k % PER_BLOCK != 0 ==> z == At(s, Place(n, PosOf(k / PER_BLOCK)))
      invariant ok && k == 0 ==> z == At(s, Place(n, PosOf(0)))
      invariant !ok ==> Searched(s, n, es, name, k, false, k < entries)
      decreases entries - k
    {
      if !ok {
        wild := true;
        return;
      }
      z, ok, found := SearchTurn(fs, n, name, k, z, s, es);
      if found { return; }
      k := if ok then k + 1 else k + PER_BLOCK;
    }
    if ok { SearchEnd(s, n, es, name); }
  }

  /** Entry `k` is the first that bears the name. */
  ghost predicate FirstWith(es: seq<Entry>, name: seq<Byte>, k: nat) {
    EntriesOk(es) && k < |es| && Bears(es[k], name) && forall i | 0 <= i < k :: !Bears(es[i], name)
  }

  ghost predicate NoneWith(es: seq<Entry>, name: seq<Byte>) {
    EntriesOk(es) && forall i | 0 <= i < |es| :: !Bears(es[i], name)
  }

  lemma SearchedNames(fs: FileSystem, n: nat, name: seq<Byte>)
    requires IsDir(fs, n)
    ensures forall k | Searched(fs.St(), n, EntriesOf(fs, n), name, k, true, false) :: FirstWith(EntriesOf(fs, n), name, k)
    ensures forall k, wild | Searched(fs.St(), n, EntriesOf(fs, n), name, k, false, wild) ::
              name != [] && Sees(fs.St(), n, |EntriesOf(fs, n)|) ==> NoneWith(EntriesOf(fs, n), name)
  {
    var s, es := fs.St(), EntriesOf(fs, n);
    FindBears(es, name);
    hide Blocked, Find, Bears;
    if Sees(s, n, |es|) { SeenAll(s, n, |es|); }
    hide Sees;
  }

  /** One turn of the search: entry `k`. */
  method SearchTurn(fs: FileSystem, n: nat, name: seq<Byte>, k: nat, here: nat, ghost s: Fs, ghost es: seq<Entry>)
    returns (z: nat, ok: bool, found: bool)
    requires IsDir(fs, n) && fs.St() == s && es == EntriesOf(fs, n) && k < |es| && Searching(s, n, es, name, k)
    requires k % PER_BLOCK != 0 ==> here == At(s, Place(n, PosOf(k / PER_BLOCK)))
    requires k == 0 ==> here == At(s, Place(n, PosOf(0)))
    modifies fs.zone, fs.blocks, fs.bits, fs`owner, fs`leaked, fs`bad
    ensures IsDir(fs, n) && fs.St() == s && es == EntriesOf(fs, n)
    ensures if found then Searched(s, n, es, name, k, true, false)
            else if ok then Searching(s, n, es, name, k + 1)
            else Searched(s, n, es, name, k + PER_BLOCK, false, k + PER_BLOCK < |es|)
    ensures found ==> 0 < z == At(s, Place(n, PosOf(k / PER_BLOCK)))
    ensures ok && !found && (k + 1) % PER_BLOCK != 0 ==> z == At(s, Place(n, PosOf((k + 1) / PER_BLOCK)))
  {
    DirFacts(fs, n);
    hide *;
    EntryBlock(k);
    SearchOn(s, n, es, name, k);
    z, ok := NextBlock(fs, n, k, here);
    EntryOf(fs, n, k);
    found := false;
    if !ok { return; }
    SearchNext(s, n, es, name, k);
    found := Match(Cut(name), EntryIn(fs.blocks[z], k % PER_BLOCK));
    NextInBlock(k + 1);
  }

  /** The number of the first entry in the last block. */
  function LastBlock(count: nat): (k: nat)
    requires count > 0
    ensures k < count
  {
    (count - 1) / PER_BLOCK * PER_BLOCK
  }

  /** The search comes to a block that cannot be read and is not the last one. */
  ghost predicate Wild(s: Fs, n: nat, es: seq<Entry>, name: seq<Byte>)
    requires Shape(s) && n < |s.tree| && s.tree[n] && EntriesOk(es)
  {
    && name != [] && es != [] && !Blocked(s, n, 0)
    && var k, last := Find(es, Cut(name)), LastBlock(|es|);
       last > 0 && !Sees(s, n, if k < last then k else last - 1)
  }

  /** What a search finds: the first entry with the name, if all blocks up to it can be read. */
  ghost predicate Searched(s: Fs, n: nat, es: seq<Entry>, name: seq<Byte>, k: nat, found: bool, wild: bool) {
    && Shape(s) && n < |s.tree| && s.tree[n] && EntriesOk(es)
    && var k0 := Find(es, Cut(name));
       && (found <==> name != [] && k0 < |es| && Sees(s, n, k0))
       && (found ==> k == k0)
       && (wild <==> Wild(s, n, es, name))
  }

  /** The directory has the name, and the search says that it does not. */
  ghost predicate Missed(s: Fs, n: nat, es: seq<Entry>, name: seq<Byte>)
    requires Shape(s) && n < |s.tree| && s.tree[n] && EntriesOk(es)
  {
    Find(es, Cut(name)) < |es| && !Sees(s, n, Find(es, Cut(name))) && !Wild(s, n, es, name)
  }

  /** A name is missed exactly when the first block cannot be read, or when the last one cannot, has the name, and is the
      first that cannot. */
  lemma MissedIff(s: Fs, n: nat, es: seq<Entry>, name: seq<Byte>)
    requires Shape(s) && n < |s.tree| && s.tree[n] && EntriesOk(es) && name != []
    ensures Missed(s, n, es, name) <==>
              var k := Find(es, Cut(name));
              k < |es| && (Blocked(s, n, 0) ||
                (0 < LastBlock(|es|) <= k && Sees(s, n, LastBlock(|es|) - 1) && !Sees(s, n, k)))
  {
    var k := Find(es, Cut(name));
    if k < |es| {
      var last := LastBlock(|es|);
      SeesStart(s, n);
      if last == 0 && !Blocked(s, n, 0) { FirstSeen(s, n, k); }
      if last > 0 && k < last && Sees(s, n, last - 1) { SeenAll(s, n, last - 1); }
    }
    hide Blocked, Sees, Find, LastBlock;
  }

  /** A directory of one block is all there, or not at all. */
  lemma FirstSeen(s: Fs, n: nat, k: nat)
    requires Shape(s) && n < |s.tree| && s.tree[n] && k < PER_BLOCK && !Blocked(s, n, 0)
    ensures Sees(s, n, k)
  {
    hide Blocked;
    forall p | 0 <= p <= 16 * k ensures !Blocked(s, n, p) { BlockedByBlock(s, n, p, 0); }
  }

  /** Entries before number `k` could be read and do not match. */
  ghost predicate Searching(s: Fs, n: nat, es: seq<Entry>, name: seq<Byte>, k: nat) {
    && Shape(s) && n < |s.tree| && s.tree[n] && EntriesOk(es) && name != [] && k <= |es|
    && (if k == 0 then !Blocked(s, n, 0) else Sees(s, n, k - 1))
    && forall j | 0 <= j < k :: !Match(Cut(name), es[j])
  }

  lemma SearchStart(s: Fs, n: nat, es: seq<Entry>, name: seq<Byte>)
    requires Shape(s) && n < |s.tree| && s.tree[n] && EntriesOk(es)
    ensures name == [] || Blocked(s, n, 0) ==> Searched(s, n, es, name, 0, false, false)
    ensures name != [] && !Blocked(s, n, 0) ==> Searching(s, n, es, name, 0)
  {
    hide Blocked;
  }

  lemma SearchOn(s: Fs, n: nat, es: seq<Entry>, name: seq<Byte>, k: nat)
    requires Searching(s, n, es, name, k) && k < |es| && 16 * k < LIMIT
    ensures Shape(s) && n < |s.tree| && s.tree[n]
    ensures k == 0 || k % PER_BLOCK != 0 ==> !Blocked(s, n, 16 * k)
    ensures Blocked(s, n, 16 * k) ==> Searched(s, n, es, name, k + PER_BLOCK, false, k + PER_BLOCK < |es|)
  {
    SeesNext(s, n, k);
    SeesStart(s, n);
    if Blocked(s, n, 16 * k) {
      NotSeen(s, n, es, Cut(name), k);
      LastFrom(k, |es|);
    }
    hide Blocked, Sees, LastBlock;
  }

  lemma LastFrom(k: nat, count: nat)
    requires k < count && k % PER_BLOCK == 0
    ensures k <= LastBlock(count) && (k == LastBlock(count) <==> k + PER_BLOCK >= count)
  {
  }

  lemma SearchNext(s: Fs, n: nat, es: seq<Entry>, name: seq<Byte>, k: nat)
    requires Searching(s, n, es, name, k) && k < |es| && 16 * k < LIMIT && !Blocked(s, n, 16 * k)
    ensures EntriesOk(es)
    ensures if Match(Cut(name), es[k]) then Searched(s, n, es, name, k, true, false) else Searching(s, n, es, name, k + 1)
  {
    SeesNext(s, n, k);
    if Match(Cut(name), es[k]) {
      FindIs(es, Cut(name), k);
      SeenAll(s, n, k);
    }
    hide Blocked, Sees, LastBlock;
  }

  lemma SearchEnd(s: Fs, n: nat, es: seq<Entry>, name: seq<Byte>)
    requires Searching(s, n, es, name, |es|)
    ensures Searched(s, n, es, name, |es|, false, false)
  {
    NoneMatches(es, Cut(name));
    if es != [] { SeenAll(s, n, |es| - 1); }
    hide Blocked, Sees, LastBlock;
  }

  lemma SeenAll(s: Fs, n: nat, k: nat)
    requires Shape(s) && n < |s.tree| && s.tree[n] && Sees(s, n, k)
    ensures !Blocked(s, n, 0) && forall j: nat | j <= k :: Sees(s, n, j)
  {
    hide Blocked;
  }

  lemma FirstBlock(s: Fs, n: nat, z: nat)
    requires Shape(s) && n < |s.tree| && s.tree[n] && z == At(s, Place(n, PosOf(0))) && z != 0
    ensures Blocked(s, n, 0) <==> z in s.bad
  {
    assert PosOf(0) == Zone(0);
  }

  lemma SeesStart(s: Fs, n: nat)
    requires Shape(s) && n < |s.tree| && s.tree[n]
    ensures forall k: nat | Sees(s, n, k) :: !Blocked(s, n, 0)
  {
    hide Blocked;
  }

  lemma NotSeen(s: Fs, n: nat, es: seq<Entry>, name: seq<Byte>, i: nat)
    requires Shape(s) && n < |s.tree| && s.tree[n] && EntriesOk(es)
    requires i < |es| && Blocked(s, n, 16 * i) && forall j | 0 <= j < i :: !Match(name, es[j])
    ensures Find(es, name) >= i && forall k: nat | k >= i :: !Sees(s, n, k)
  {
    hide Blocked;
  }

  lemma NoneMatches(es: seq<Entry>, name: seq<Byte>)
    requires EntriesOk(es) && forall j | 0 <= j < |es| :: !Match(name, es[j])
    ensures Find(es, name) == |es|
  {
  }

  // ---------- Adding ----------

  lemma EntriesSame(s: Fs, s': Fs, n: nat, count: nat)
    requires Shape(s) && Shape(s') && FilesSame(s, s') && n < |s.tree| && s.tree[n] && 16 * count <= LIMIT
    ensures n < |s'.tree| && s'.tree[n] && Entries(s', n, count) == Entries(s, n, count)
  {
    forall i | 0 <= i < count ensures EntryAt(s', n, i) == EntryAt(s, n, i) {
      assert forall p | 16 * i <= p < 16 * i + 16 :: ByteAt(s', n, p) == ByteAt(s, n, p);
      assert EntryAt(s', n, i).name == EntryAt(s, n, i).name;
    }
  }

  /** Growth of the block trees leaves a directory as it is. */
  lemma DirGrown(s: Fs, s': Fs, n: nat, count: nat)
    requires Grown(s, s') && n < |s.tree| && s.tree[n] && Whole(s, n, count)
    ensures n < |s'.tree| && s'.tree[n] && Whole(s', n, count) && Entries(s', n, count) == Entries(s, n, count)
  {
    EntriesSame(s, s', n, count);
    forall b: nat | b < MAX_BLOCKS && (b == 0 || PER_BLOCK * b < count) ensures At(s', Place(n, PosOf(b))) != 0 {
      assert IsPlace(s, Place(n, PosOf(b))) && At(s, Place(n, PosOf(b))) != 0;
    }
  }

  /** The block of entry `i`, created if the directory has to grow; `wild` when it exists and cannot be read. */
  method ReadyBlock(fs: FileSystem, n: nat, i: nat, here: nat) returns (z: nat, wild: bool)
    requires IsDir(fs, n) && i <= fs.size[n] / 16 && 16 * i + 16 <= LIMIT
    requires i % PER_BLOCK != 0 || i == 0 ==> Here(fs.St(), n, i, here)
    requires i % PER_BLOCK != 0 || i == 0 ==> !Blocked(fs.St(), n, 16 * i)
    modifies fs.zone, fs.blocks, fs.bits, fs`owner, fs`leaked, fs`bad
    ensures IsDir(fs, n) && Grown(old(fs.St()), fs.St()) && EntriesOf(fs, n) == old(EntriesOf(fs, n))
    ensures Ready(old(fs.St()), fs.St(), n, i, z, wild)
    ensures wild ==> z == 0
    ensures z != 0 ==> z < fs.blocks.Length && EntryIn(fs.blocks[z], i % PER_BLOCK) == EntryAt(fs.St(), n, i)
  {
    ghost var s := fs.St();
    DirFacts(fs, n);
    EntryPos(i);
    hide *;
    EntryBlock(i);
    z, wild := here, false;
    if i > 0 && i % PER_BLOCK == 0 {
      z := fs.BmapOrCreate(n, i / PER_BLOCK, true);
      BlockMade(s, fs.St(), n, i, z);
      if z != 0 {
        var ok := fs.Bread(z);
        if !ok { z, wild := 0, true; }
      }
    } else {
      ReadyHere(s, n, i, z);
    }
    GrownDir(fs, s, n, i, z);
  }

  lemma ReadyHere(s: Fs, n: nat, i: nat, z: nat)
    requires TreeInv(s) && Here(s, n, i, z) && !Blocked(s, n, 16 * i) && 16 * i + 16 <= LIMIT
    ensures Ready(s, s, n, i, z, false) && Grown(s, s)
  {
    GrownSelf(s, s);
    hide Blocked;
  }

  lemma GrownDir(fs: FileSystem, s: Fs, n: nat, i: nat, z: nat)
    requires fs.Valid() && fs.IsFile(n) && Grown(s, fs.St()) && fs.size[n] % 16 == 0 && Whole(s, n, fs.size[n] / 16)
    requires n < |s.tree| && s.tree[n] && 16 * i + 16 <= LIMIT && (z != 0 ==> Here(fs.St(), n, i, z))
    ensures IsDir(fs, n) && EntriesOf(fs, n) == Entries(s, n, fs.size[n] / 16)
    ensures z != 0 ==> z < fs.blocks.Length && EntryIn(fs.blocks[z], i % PER_BLOCK) == EntryAt(fs.St(), n, i)
  {
    EntryPos(i);
    hide TreeInv, At, PosOf, EntryAt, EntryIn;
    DirGrown(s, fs.St(), n, fs.size[n] / 16);
    if z != 0 {
      ZoneOf(fs.St(), n, i / PER_BLOCK);
      EntryInBlock(fs.St(), n, i);
    }
  }

  ghost predicate Ready(s: Fs, s': Fs, n: nat, i: nat, z: nat, wild: bool) {
    && Shape(s) && Shape(s') && n < |s.tree| && s.tree[n] && n < |s'.tree| && s'.tree[n] && 16 * i + 16 <= LIMIT
    && if z == 0 then Blocked(s, n, 16 * i) || (!wild && AllUsed(s') && NoBlock(s', n, i))
       else !wild && !Blocked(s, n, 16 * i) && Here(s', n, i, z)
  }

  lemma BlockMade(s: Fs, s': Fs, n: nat, i: nat, z: nat)
    requires TreeInv(s) && TreeInv(s') && s.dead == {} && Grown(s, s') && n < |s.tree| && s.tree[n]
    requires 16 * i + 16 <= LIMIT && i / PER_BLOCK < MAX_BLOCKS
    requires Found(s, s', Place(n, PosOf(i / PER_BLOCK)), z, true)
    ensures Shape(s) && IsPlace(s', Place(n, PosOf(i / PER_BLOCK)))
    ensures if z == 0 then Ready(s, s', n, i, 0, false)
            else if z in s'.bad then Ready(s, s', n, i, 0, true)
            else Ready(s, s', n, i, z, false) && Here(s', n, i, z)
  {
    EntryBytes(i, 16 * i);
    HiddenKept(s, s', PlaceOf(n, 16 * i));
    hide At, PosOf, Hidden, AllUsed, TreeInv;
  }

  lemma GrownSelf(s: Fs, s': Fs)
    requires Shape(s)
    ensures s' == s ==> Grown(s, s')
  {
  }

  /** Two writes one behind the other are one write. */
  lemma StoredBoth(s: Fs, s1: Fs, s2: Fs, n: nat, pos: nat, a: seq<Byte>, b: seq<Byte>)
    requires Stored(s, s1, n, pos, a) && Stored(s1, s2, n, pos + |a|, b)
    ensures Stored(s, s2, n, pos, a + b)
  {
  }

  /** Writing what is there already can be left out. */
  lemma StoredBehind(s: Fs, s1: Fs, n: nat, pos: nat, a: seq<Byte>, b: seq<Byte>)
    requires Stored(s, s1, n, pos + |a|, b) && forall i | 0 <= i < |a| :: ByteAt(s, n, pos + i) == a[i]
    ensures Stored(s, s1, n, pos, a + b)
  {
    forall p | pos <= p < pos + |a| ensures ByteAt(s, n, p) == (a + b)[p - pos] {
      assert ByteAt(s, n, pos + (p - pos)) == a[p - pos];
    }
  }

  lemma EntryPos(k: nat)
    requires 16 * k + 16 <= LIMIT
    ensures k / PER_BLOCK < MAX_BLOCKS
    ensures 16 * k / BLOCK_SIZE == (16 * k + 2) / BLOCK_SIZE == k / PER_BLOCK
    ensures 16 * k % BLOCK_SIZE + 16 <= BLOCK_SIZE && (16 * k + 2) % BLOCK_SIZE + 14 <= BLOCK_SIZE
  {
  }

  /** After a write to entry `k`, and with that entry counted, the directory is whole. */
  lemma WholeStored(s: Fs, s': Fs, n: nat, count: nat, k: nat)
    requires Shape(s) && Shape(s') && SameAt(s, s') && n < |s.tree| && s.tree[n] && n < |s'.tree| && s'.tree[n]
    requires Whole(s, n, count) && k <= count && 16 * k + 16 <= LIMIT && At(s, Place(n, PosOf(k / PER_BLOCK))) != 0
    ensures Whole(s', n, if k < count then count else count + 1)
  {
    var c := if k < count then count else count + 1;
    forall b: nat | b < MAX_BLOCKS && (b == 0 || PER_BLOCK * b < c)
      ensures At(s', Place(n, PosOf(b))) != 0
    {
      assert b == 0 || PER_BLOCK * b < count || b == k / PER_BLOCK;
      assert IsPlace(s, Place(n, PosOf(b))) && At(s', Place(n, PosOf(b))) == At(s, Place(n, PosOf(b)));
    }
  }

  /** What a change of one entry leaves alone. */
  ghost predicate Changed(s: Fs, s': Fs, n: nat, k: nat, e: Entry) {
    && EntryOk(e) && Stored(s, s', n, 16 * k, Raw(e)) && SameAt(s, s')
  }

  lemma ChangedDir(s: Fs, s': Fs, n: nat, count: nat, k: nat, e: Entry)
    requires Changed(s, s', n, k, e) && 16 * k + 16 <= LIMIT && k <= count
    requires Whole(s, n, count) && At(s, Place(n, PosOf(k / PER_BLOCK))) != 0
    ensures var c := if k < count then count else count + 1;
            Whole(s', n, c) && Entries(s', n, c) == Put(Entries(s, n, count), k, e)
  {
    StoredEntry(s, s', n, count, k, e);
    WholeStored(s, s', n, count, k);
  }

  /** The entry gets its name; a new one, at the end, is cleared and counted first. */
  method Enter(fs: FileSystem, n: nat, k: nat, z: nat, short: seq<Byte>)
    requires IsDir(fs, n) && k <= fs.size[n] / 16 && 16 * k + 16 <= LIMIT && 0 < |short| <= NAME_LEN
    requires 0 < z == At(fs.St(), Place(n, PosOf(k / PER_BLOCK)))
    requires k < fs.size[n] / 16 ==> EntryAt(fs.St(), n, k).inode == 0
    modifies fs.size, fs.blocks
    ensures fs.Valid() && fs.IsFile(n) && Changed(old(fs.St()), fs.St(), n, k, Entry(0, Pad(short)))
    ensures Kept(old(fs.St()), fs.St())
    ensures fs.size[..] == old(fs.size[..])[n := if k < old(fs.size[n]) / 16 then old(fs.size[n]) else 16 * (k + 1)]
  {
    hide TreeInv, At, PosOf, EntryAt, EntryIn, ByteAt, Whole, Stored, SameAt, IsDir, Kept;
    DirFacts(fs, n);
    EntryPos(k);
    ghost var s := fs.St();
    if 16 * k >= fs.size[n] {
      fs.CopyIn(n, 16 * k, z, 2, [0, 0], 0);
      fs.size[n] := 16 * (k + 1);
      ghost var s1 := fs.St();
      SamePlace(s, s1, n, k / PER_BLOCK);
      PutName(fs, n, k, z, Pad(short));
      SameAtBoth(s, s1, fs.St());
      KeptTrans(s, s1, fs.St());
      assert [0, 0][0..2] == [0, 0];
      StoredBoth(s, s1, fs.St(), n, 16 * k, [0, 0], Pad(short));
    } else {
      PutName(fs, n, k, z, Pad(short));
      FreeBytes(s, n, k);
      StoredBehind(s, fs.St(), n, 16 * k, [0, 0], Pad(short));
    }
  }

  method PutName(fs: FileSystem, n: nat, k: nat, z: nat, name: seq<Byte>)
    requires fs.Valid() && fs.IsFile(n) && 16 * k + 16 <= LIMIT && |name| == NAME_LEN
    requires 0 < z == At(fs.St(), Place(n, PosOf(k / PER_BLOCK)))
    modifies fs.blocks
    ensures fs.Valid() && Stored(old(fs.St()), fs.St(), n, 16 * k + 2, name) && SameAt(old(fs.St()), fs.St())
    ensures Kept(old(fs.St()), fs.St())
  {
    hide TreeInv, At, PosOf, Stored, ByteAt, SameAt, Kept;
    EntryPos(k);
    fs.CopyIn(n, 16 * k + 2, z, 14, name, 0);
    assert name[0..14] == name;
  }

  lemma SamePlace(s: Fs, s': Fs, n: nat, b: nat)
    requires Shape(s) && Shape(s') && SameAt(s, s') && n < |s.tree| && s.tree[n] && b < MAX_BLOCKS
    ensures IsPlace(s', Place(n, PosOf(b))) && At(s', Place(n, PosOf(b))) == At(s, Place(n, PosOf(b)))
  {
    assert IsPlace(s, Place(n, PosOf(b)));
  }

  lemma SameAtBoth(s: Fs, s1: Fs, s2: Fs)
    requires Shape(s) && Shape(s1) && Shape(s2) && SameAt(s, s1) && SameAt(s1, s2)
    ensures SameAt(s, s2)
  {
  }

  lemma FreeBytes(s: Fs, n: nat, k: nat)
    requires Shape(s) && n < |s.tree| && s.tree[n] && 16 * k + 16 <= LIMIT && EntryAt(s, n, k).inode == 0
    ensures ByteAt(s, n, 16 * k) == 0 && ByteAt(s, n, 16 * k + 1) == 0
  {
  }

  /** add_entry: the first free entry, or a new one at the end. Its inode number is still 0. It fails, and changes nothing,
      when a block that it comes to cannot be read or no zone is free for a new one. */
  method AddEntry(fs: FileSystem, n: nat, name: seq<Byte>) returns (z: nat, k: nat, ok: bool, wild: bool)
    requires IsDir(fs, n) && (FirstFree(EntriesOf(fs, n)) < |EntriesOf(fs, n)| || fs.size[n] < LIMIT)
    modifies fs.zone, fs.size, fs.blocks, fs.bits, fs`owner, fs`leaked, fs`bad
    ensures IsDir(fs, n) && Kept(old(fs.St()), fs.St()) && (name == [] ==> !ok && !wild) && (wild ==> !ok)
    ensures Added(old(fs.St()), fs.St(), n, FirstFree(old(EntriesOf(fs, n))), ok, wild) || name == []
    ensures !ok ==> Grown(old(fs.St()), fs.St()) && fs.size[..] == old(fs.size[..])
                    && EntriesOf(fs, n) == old(EntriesOf(fs, n))
    ensures !ok && name != [] && FirstFree(EntriesOf(fs, n)) < |EntriesOf(fs, n)| ==>
              !Sees(old(fs.St()), n, FirstFree(EntriesOf(fs, n)))
    ensures ok ==> name != [] && k == FirstFree(old(EntriesOf(fs, n))) && 16 * k + 16 <= LIMIT
                   && 0 < z == At(fs.St(), Place(n, PosOf(k / PER_BLOCK)))
                   && EntriesOf(fs, n) == Put(old(EntriesOf(fs, n)), k, Entry(0, Pad(Cut(name))))
                   && Stored(old(fs.St()), fs.St(), n, 16 * k, Raw(Entry(0, Pad(Cut(name)))))
    ensures ok ==> Written(fs.St(), n, k, name, 0)
  {
    hide TreeInv, At, PosOf, EntryAt, EntryIn, ByteAt, Whole, Grown, Stored, SameAt, IsDir, EntriesOf, Entries, FirstFree;
    hide Kept, Sees, Blocked, AllUsed, Scanned, Added, NoBlock, Written;
    DirFacts(fs, n);
    ghost var s, es := fs.St(), EntriesOf(fs, n);
    if name == [] {
      GrownSelf(s, s);
      GrownKeeps(s, s);
      return 0, 0, false, false;
    }
    z, k, wild := ScanFree(fs, n);
    GrownKeeps(s, fs.St());
    AddedIs(s, fs.St(), n, es, z, k, wild);
    if z == 0 {
      DirFacts(fs, n);
      AddFailed(s, fs.St(), n, es, wild);
      return z, k, false, wild;
    }
    DirFacts(fs, n);
    ghost var s1 := fs.St();
    EnterName(fs, n, k, z, name);
    StoredAfterGrown(s, s1, fs.St(), n, 16 * k, Raw(Entry(0, Pad(Cut(name)))));
    DirFacts(fs, n);
    AddedOn(s, s1, fs.St(), n, k);
    ok := true;
  }

  /** Entry `k` gets the name. */
  method EnterName(fs: FileSystem, n: nat, k: nat, z: nat, name: seq<Byte>)
    requires IsDir(fs, n) && name != [] && k <= |EntriesOf(fs, n)| && 16 * k + 16 <= LIMIT
    requires k < |EntriesOf(fs, n)| ==> EntriesOf(fs, n)[k].inode == 0
    requires 0 < z == At(fs.St(), Place(n, PosOf(k / PER_BLOCK)))
    modifies fs.size, fs.blocks
    ensures IsDir(fs, n) && Kept(old(fs.St()), fs.St()) && z == At(fs.St(), Place(n, PosOf(k / PER_BLOCK)))
    ensures EntriesOf(fs, n) == Put(old(EntriesOf(fs, n)), k, Entry(0, Pad(Cut(name))))
    ensures Stored(old(fs.St()), fs.St(), n, 16 * k, Raw(Entry(0, Pad(Cut(name))))) && Written(fs.St(), n, k, name, 0)
  {
    hide TreeInv, At, PosOf, EntryAt, EntryIn, ByteAt, Whole, Stored, SameAt, IsDir, EntriesOf, Entries, Kept, Written;
    DirFacts(fs, n);
    EntryPos(k);
    ghost var s, es, e := fs.St(), EntriesOf(fs, n), Entry(0, Pad(Cut(name)));
    if k < |es| { EntryOf(fs, n, k); }
    Enter(fs, n, k, z, Cut(name));
    ChangedDir(s, fs.St(), n, |es|, k, e);
    SamePlace(s, fs.St(), n, k / PER_BLOCK);
    NowDir(fs, n, Put(es, k, e));
    EntryOf(fs, n, k);
    WrittenIs(fs.St(), n, k, name, 0);
  }

  /** The 16 bytes of entry `k`: the inode number, low byte first, and then the name. */
  ghost predicate Written(s: Fs, n: nat, k: nat, name: seq<Byte>, inode: nat) {
    && Shape(s) && n < |s.tree| && s.tree[n] && 16 * k + 16 <= LIMIT
    && ByteAt(s, n, 16 * k) == inode % 256 && ByteAt(s, n, 16 * k + 1) == inode / 256
    && forall j | 0 <= j < 14 :: ByteAt(s, n, 16 * k + 2 + j) == if j < |name| then name[j] else 0
  }

  lemma WrittenIs(s: Fs, n: nat, k: nat, name: seq<Byte>, inode: nat)
    requires Shape(s) && n < |s.tree| && s.tree[n] && 16 * k + 16 <= LIMIT && inode < 0x1_0000
    requires |Cut(name)| <= NAME_LEN && EntryAt(s, n, k) == Entry(inode, Pad(Cut(name)))
    ensures Written(s, n, k, name, inode)
  {
    PadSpells(name);
    forall j | 0 <= j < 14 ensures ByteAt(s, n, 16 * k + 2 + j) == if j < |name| then name[j] else 0 {
      assert EntryAt(s, n, k).name[j] == ByteAt(s, n, 16 * k + 2 + j);
    }
  }

  /** add_entry fails exactly when it cannot read all blocks up to the first free entry, or when there is no block for this
      entry and no zone is left. */
  ghost predicate Added(s: Fs, s': Fs, n: nat, k0: nat, ok: bool, wild: bool) {
    && Shape(s) && Shape(s') && n < |s.tree| && s.tree[n] && n < |s'.tree| && s'.tree[n]
    && if ok then !wild && Sees(s, n, k0)
       else
         && (!Sees(s, n, k0) || (!wild && AllUsed(s') && NoBlock(s', n, k0)))
         && (wild ==> !Blocked(s, n, 0) && !Sees(s, n, k0))
  }

  /** The block for entry `k` does not exist. */
  predicate NoBlock(s: Fs, n: nat, k: nat)
    requires Shape(s) && n < |s.tree| && s.tree[n]
  {
    16 * k + 16 <= LIMIT && k / PER_BLOCK < MAX_BLOCKS && At(s, Place(n, PosOf(k / PER_BLOCK))) == 0
  }

  lemma AddedIs(s: Fs, s': Fs, n: nat, es: seq<Entry>, z: nat, k: nat, wild: bool)
    requires Scanned(s, s', n, es, z, k, wild)
    ensures Added(s, s', n, FirstFree(es), z != 0, wild)
    ensures z != 0 ==> !wild && k == FirstFree(es) <= |es| && 16 * k + 16 <= LIMIT && (k < |es| ==> es[k].inode == 0)
  {
    hide Sees, Blocked, AllUsed;
  }

  lemma BlockIs(s: Fs, n: nat, count: nat, k: nat)
    requires Shape(s) && n < |s.tree| && s.tree[n] && Whole(s, n, count) && k < count
    ensures !NoBlock(s, n, k)
  {
  }

  lemma AddFailed(s: Fs, s': Fs, n: nat, es: seq<Entry>, wild: bool)
    requires Added(s, s', n, FirstFree(es), false, wild) && Whole(s', n, |es|)
    ensures FirstFree(es) < |es| ==> !Sees(s, n, FirstFree(es))
  {
    if FirstFree(es) < |es| { BlockIs(s', n, |es|, FirstFree(es)); }
    hide Sees, Blocked, AllUsed, NoBlock, FirstFree;
  }

  lemma AddedOn(s: Fs, s1: Fs, s2: Fs, n: nat, k0: nat)
    requires Added(s, s1, n, k0, true, false) && Shape(s2) && n < |s2.tree| && s2.tree[n]
    ensures Added(s, s2, n, k0, true, false)
  {
    hide Sees;
  }

  /** The loop of add_entry, up to the entry that will be used. */
  method ScanFree(fs: FileSystem, n: nat) returns (z: nat, k: nat, wild: bool)
    requires IsDir(fs, n) && (FirstFree(EntriesOf(fs, n)) < |EntriesOf(fs, n)| || fs.size[n] < LIMIT)
    modifies fs.zone, fs.blocks, fs.bits, fs`owner, fs`leaked, fs`bad
    ensures IsDir(fs, n) && Grown(old(fs.St()), fs.St()) && EntriesOf(fs, n) == old(EntriesOf(fs, n))
    ensures Scanned(old(fs.St()), fs.St(), n, EntriesOf(fs, n), z, k, wild)
    ensures z != 0 ==> Here(fs.St(), n, k, z)
  {
    hide *;
    DirFacts(fs, n);
    ghost var s, es := fs.St(), EntriesOf(fs, n);
    z, k, wild := fs.zone[n][0], 0, false;
    FirstBlock(s, n, z);
    HereFirst(s, n, z);
    GrownSelf(s, s);
    ScanStart(s, n, es);
    var ok := fs.Bread(z);
    if !ok { return 0, 0, false; }
    var entries := fs.size[n] / 16;
    EntryBlock(0);
    while k <= entries
      invariant 0 <= k <= entries == fs.size[n] / 16 == |es| && IsDir(fs, n) && Grown(s, fs.St())
      invariant !wild && EntriesOf(fs, n) == es && Scanning(s, n, es, k)
      invariant k % PER_BLOCK != 0 || k == 0 ==> Here(fs.St(), n, k, z)
    {
      var stop;
      z, stop, wild := ScanTurn(fs, n, k, z, s, es);
      if stop { return; }
      k := k + 1;
      EntryBlock(k);
    }
  }

  /** One turn of the scan: entry `k`, or a new one. */
  method ScanTurn(fs: FileSystem, n: nat, k: nat, here: nat, ghost s: Fs, ghost es: seq<Entry>)
    returns (z: nat, stop: bool, wild: bool)
    requires IsDir(fs, n) && es == EntriesOf(fs, n) && Grown(s, fs.St()) && k <= |es| && Scanning(s, n, es, k)
    requires k % PER_BLOCK != 0 || k == 0 ==> Here(fs.St(), n, k, here)
    modifies fs.zone, fs.blocks, fs.bits, fs`owner, fs`leaked, fs`bad
    ensures IsDir(fs, n) && es == EntriesOf(fs, n) && Grown(s, fs.St())
    ensures if stop then Scanned(s, fs.St(), n, es, z, k, wild) else !wild && k < |es| && Scanning(s, n, es, k + 1)
    ensures z != 0 ==> Here(fs.St(), n, k, z)
    ensures !stop && (k + 1) % PER_BLOCK != 0 ==> Here(fs.St(), n, k + 1, z)
  {
    hide *;
    DirFacts(fs, n);
    EntryBlock(k);
    ghost var s1 := fs.St();
    ScanOn(s, s1, n, es, k);
    z, wild := ReadyBlock(fs, n, k, here);
    DirFacts(fs, n);
    GrownTrans(s, s1, fs.St());
    if k < |es| { BlockIs(fs.St(), n, |es|, k); }
    ScanNext(s, s1, fs.St(), n, es, k, z, wild);
    if k < |es| { EntryOf(fs, n, k); }
    stop := z == 0 || k == fs.size[n] / 16 || EntryIn(fs.blocks[z], k % PER_BLOCK).inode == 0;
    NextInBlock(k + 1);
    if z != 0 { HereNext(s1, fs.St(), n, k, z, wild); }
  }

  lemma HereFirst(s: Fs, n: nat, z: nat)
    requires Shape(s) && n < |s.tree| && s.tree[n] && z == At(s, Place(n, PosOf(0))) && z != 0
    ensures Here(s, n, 0, z)
  {
  }

  lemma HereNext(s: Fs, s': Fs, n: nat, k: nat, z: nat, wild: bool)
    requires Ready(s, s', n, k, z, wild) && z != 0
    ensures Here(s', n, k, z)
    ensures (k + 1) % PER_BLOCK != 0 ==> Here(s', n, k + 1, z)
  {
    hide Blocked, AllUsed, At, PosOf;
    NextInBlock(k + 1);
  }

  /** `z` is the zone of the block with entry `k`. */
  ghost predicate Here(s: Fs, n: nat, k: nat, z: nat) {
    && Shape(s) && n < |s.tree| && s.tree[n] && k / PER_BLOCK < MAX_BLOCKS
    && z == At(s, Place(n, PosOf(k / PER_BLOCK))) && z != 0
  }

  /** The scan comes to the first free entry, or a new one, unless a block on the way cannot be read or there is no space. */
  ghost predicate Scanned(s: Fs, s': Fs, n: nat, es: seq<Entry>, z: nat, k: nat, wild: bool) {
    && Shape(s) && Shape(s') && n < |s.tree| && s.tree[n] && n < |s'.tree| && s'.tree[n]
    && var k0 := FirstFree(es);
       if z == 0 then
         && (!Sees(s, n, k0) || (!wild && AllUsed(s') && NoBlock(s', n, k0)))
         && (wild ==> !Blocked(s, n, 0) && !Sees(s, n, k0))
       else !wild && Sees(s, n, k0) && k == k0 && 16 * k + 16 <= LIMIT
  }

  /** Entries before number `k` could be read and are in use. */
  ghost predicate Scanning(s: Fs, n: nat, es: seq<Entry>, k: nat) {
    && Shape(s) && n < |s.tree| && s.tree[n] && k <= |es| && TreeInv(s) && s.dead == {}
    && (FirstFree(es) < |es| || 16 * |es| < LIMIT)
    && (if k == 0 then !Blocked(s, n, 0) else Sees(s, n, k - 1))
    && forall j | 0 <= j < k :: es[j].inode != 0
  }

  lemma ScanStart(s: Fs, n: nat, es: seq<Entry>)
    requires TreeInv(s) && s.dead == {} && n < |s.tree| && s.tree[n] && (FirstFree(es) < |es| || 16 * |es| < LIMIT)
    ensures if Blocked(s, n, 0) then Scanned(s, s, n, es, 0, 0, false) else Scanning(s, n, es, 0)
  {
    SeesStart(s, n);
    hide Blocked, Sees;
  }

  lemma ScanOn(s: Fs, s1: Fs, n: nat, es: seq<Entry>, k: nat)
    requires Scanning(s, n, es, k) && TreeInv(s1) && Grown(s, s1) && 16 * |es| <= LIMIT
    ensures 16 * k + 16 <= LIMIT && Shape(s1) && n < |s1.tree| && s1.tree[n]
    ensures k % PER_BLOCK != 0 || k == 0 ==> !Blocked(s1, n, 16 * k)
    ensures Shape(s) && n < |s.tree| && s.tree[n] && (Blocked(s1, n, 16 * k) <==> Blocked(s, n, 16 * k))
  {
    if k == |es| { FirstFreeIs(es, k); }
    assert 16 * k < LIMIT && LIMIT % 16 == 0;
    BlockedNow(s, s1, n, k);
  }

  lemma ScanNext(s: Fs, s1: Fs, s': Fs, n: nat, es: seq<Entry>, k: nat, z: nat, wild: bool)
    requires Scanning(s, n, es, k) && Ready(s1, s', n, k, z, wild) && (Blocked(s1, n, 16 * k) <==> Blocked(s, n, 16 * k))
    requires k < |es| ==> !NoBlock(s', n, k)
    ensures if z == 0 || k == |es| || es[k].inode == 0 then Scanned(s, s', n, es, z, k, wild) else Scanning(s, n, es, k + 1)
  {
    SeesNext(s, n, k);
    SeesStart(s, n);
    FreeBehind(s, n, es, k);
    if k == |es| || es[k].inode == 0 { FirstFreeIs(es, k); }
    hide Blocked, Sees, TreeInv;
  }

  lemma SeesFirst(s: Fs, n: nat, k: nat)
    requires Shape(s) && n < |s.tree| && s.tree[n]
    ensures Sees(s, n, k) ==> !Blocked(s, n, 0)
    ensures k == 0 && !Blocked(s, n, 0) ==> Sees(s, n, k)
  {
    hide Blocked;
  }

  /** Growth has not changed what is known about entry `k`. */
  lemma BlockedNow(s: Fs, s1: Fs, n: nat, k: nat)
    requires TreeInv(s) && TreeInv(s1) && s.dead == {} && Grown(s, s1) && n < |s.tree| && s.tree[n] && 16 * k < LIMIT
    requires if k == 0 then !Blocked(s, n, 0) else Sees(s, n, k - 1)
    ensures Shape(s1) && n < |s1.tree| && s1.tree[n] && (Blocked(s1, n, 16 * k) <==> Blocked(s, n, 16 * k))
    ensures k % PER_BLOCK != 0 || k == 0 ==> !Blocked(s1, n, 16 * k)
  {
    HiddenKept(s, s1, PlaceOf(n, 16 * k));
    SeesNext(s, n, k);
  }

  /** The first free entry lies behind all that have been looked at. */
  lemma FreeBehind(s: Fs, n: nat, es: seq<Entry>, k: nat)
    requires Shape(s) && n < |s.tree| && s.tree[n] && k <= |es| && forall i | 0 <= i < k :: es[i].inode != 0
    ensures Blocked(s, n, 16 * k) ==> !Sees(s, n, FirstFree(es))
  {
    hide Blocked;
  }

  lemma EntryBlock(k: nat)
    ensures PER_BLOCK == 64 && LIMIT % 16 == 0 && MAX_BLOCKS > 0
    ensures 16 * k + 16 <= LIMIT ==> k / PER_BLOCK < MAX_BLOCKS
  {
  }

  lemma NextInBlock(k: nat)
    requires k > 0 && 16 * k <= LIMIT
    ensures k % PER_BLOCK != 0 ==> k / PER_BLOCK == (k - 1) / PER_BLOCK < MAX_BLOCKS
  {
  }

  lemma FirstFreeIs(es: seq<Entry>, k: nat)
    requires k <= |es| && (k < |es| ==> es[k].inode == 0) && forall i | 0 <= i < k :: es[i].inode != 0
    ensures FirstFree(es) == k
  {
  }

  // ---------- Names ----------

  lemma StoredAhead(s: Fs, s1: Fs, n: nat, pos: nat, a: seq<Byte>, b: seq<Byte>)
    requires Stored(s, s1, n, pos, a) && pos + |a| + |b| <= LIMIT
    requires forall i | 0 <= i < |b| :: ByteAt(s, n, pos + |a| + i) == b[i]
    ensures Stored(s, s1, n, pos, a + b)
  {
    forall p | pos + |a| <= p < pos + |a + b| ensures ByteAt(s, n, p) == (a + b)[p - pos] {
      assert ByteAt(s, n, pos + |a| + (p - pos - |a|)) == b[p - pos - |a|];
    }
  }

  lemma NameBytes(s: Fs, n: nat, k: nat)
    requires Shape(s) && n < |s.tree| && s.tree[n] && 16 * k + 16 <= LIMIT
    ensures forall j | 0 <= j < NAME_LEN :: ByteAt(s, n, 16 * k + 2 + j) == EntryAt(s, n, k).name[j]
  {
  }

  /** The caller of add_entry fills in the inode number; unlink takes it away. */
  method SetInode(fs: FileSystem, n: nat, z: nat, k: nat, inode: nat)
    requires IsDir(fs, n) && k < |EntriesOf(fs, n)| && inode < 0x1_0000
    requires 16 * k + 16 <= LIMIT && 0 < z == At(fs.St(), Place(n, PosOf(k / PER_BLOCK)))
    modifies fs.blocks
    ensures IsDir(fs, n) && EntriesOf(fs, n) == old(EntriesOf(fs, n))[k := old(EntriesOf(fs, n))[k].(inode := inode)]
    ensures exists e :: EntryOk(e) && Stored(old(fs.St()), fs.St(), n, 16 * k, Raw(e))
    ensures Kept(old(fs.St()), fs.St())
  {
    hide TreeInv, At, PosOf, EntryAt, EntryIn, ByteAt, Whole, Stored, SameAt, IsDir, EntriesOf, Entries, Kept;
    DirFacts(fs, n);
    EntryPos(k);
    ghost var s, es := fs.St(), EntriesOf(fs, n);
    ghost var e := es[k].(inode := inode);
    EntryOf(fs, n, k);
    var word := [inode % 256, inode / 256];
    fs.CopyIn(n, 16 * k, z, 2, word, 0);
    assert word[0..2] == word;
    NameBytes(s, n, k);
    StoredAhead(s, fs.St(), n, 16 * k, word, e.name);
    ChangedDir(s, fs.St(), n, |es|, k, e);
    NowDir(fs, n, Put(es, k, e));
  }

  /** Files other than `n` have not changed. */
  ghost predicate OthersSame(s: Fs, s': Fs, n: nat)
    requires Shape(s) && Shape(s')
  {
    s'.tree == s.tree && forall m, p | 0 <= m < |s.tree| && s.tree[m] && m != n && 0 <= p < LIMIT ::
      ByteAt(s', m, p) == ByteAt(s, m, p)
  }

  datatype DirOp = FindOp(name: seq<Byte>) | LinkOp(name: seq<Byte>, inode: nat) | UnlinkOp(name: seq<Byte>)
  datatype DirOut = Refused | Is(inode: nat) | Missing | Exists | NoSpace | Done | Crash

  /** Names are not empty and have no zero bytes; inode numbers are 16 bits and not 0. */
  predicate Legal(op: DirOp) {
    ValidName(Cut(op.name)) && (op.LinkOp? ==> 0 < op.inode < 0x1_0000)
  }

  /** What an operation does to the directory as a map. */
  predicate MapStep(m: map<seq<Byte>, nat>, op: DirOp, out: DirOut, t: map<seq<Byte>, nat>) {
    if !Legal(op) then out == Refused && t == m else
    var name := Cut(op.name);
    match op
    case FindOp(_) => t == m && out == if name in m then Is(m[name]) else Missing
    case LinkOp(_, inode) =>
      if name in m then out == Exists && t == m
      else (out == NoSpace && t == m) || (out == Done && t == m[name := inode])
    case UnlinkOp(_) =>
      if name in m then out == Done && t == m - {name} else out == Missing && t == m
  }

  lemma OthersGrown(s: Fs, s': Fs, n: nat)
    requires Grown(s, s')
    ensures OthersSame(s, s', n)
  {
  }

  lemma OthersStored(s: Fs, s': Fs, n: nat, pos: nat, data: seq<Byte>)
    requires Stored(s, s', n, pos, data)
    ensures OthersSame(s, s', n)
  {
  }

  lemma OthersTrans(s: Fs, s1: Fs, s2: Fs, n: nat)
    requires Shape(s) && Shape(s1) && Shape(s2) && OthersSame(s, s1, n) && OthersSame(s1, s2, n)
    ensures OthersSame(s, s2, n)
  {
  }

  /** What every operation on directory `n` keeps. */
  ghost predicate DirKept(s: Fs, s': Fs, n: nat) {
    && TreeInv(s) && s.dead == {} && TreeInv(s') && s'.dead == {} && n < |s.tree| && s.tree[n] && n < |s'.tree| && s'.tree[n]
    && Kept(s, s') && OthersSame(s, s', n)
  }

  lemma DirKeptSelf(s: Fs, n: nat)
    requires TreeInv(s) && s.dead == {} && n < |s.tree| && s.tree[n]
    ensures DirKept(s, s, n)
  {
  }

  lemma DirKeptTrans(s: Fs, s1: Fs, s2: Fs, n: nat)
    requires DirKept(s, s1, n) && DirKept(s1, s2, n)
    ensures DirKept(s, s2, n)
  {
    KeptTrans(s, s1, s2);
    OthersTrans(s, s1, s2, n);
    hide Kept, OthersSame;
  }

  lemma DirKeptStored(s: Fs, s': Fs, n: nat, pos: nat, data: seq<Byte>)
    requires TreeInv(s) && s.dead == {} && TreeInv(s') && s'.dead == {} && Kept(s, s') && Stored(s, s', n, pos, data)
    ensures DirKept(s, s', n)
  {
    OthersStored(s, s', n, pos, data);
    hide Kept, TreeInv, OthersSame;
  }

  lemma DirKeptGrown(s: Fs, s': Fs, n: nat)
    requires TreeInv(s) && s.dead == {} && TreeInv(s') && s'.dead == {} && Grown(s, s') && n < |s.tree| && s.tree[n]
    ensures DirKept(s, s', n)
  {
    OthersGrown(s, s', n);
    hide TreeInv, OthersSame;
  }

  /** add_entry, and the inode number that its caller fills in. */
  method AddLink(fs: FileSystem, n: nat, name: seq<Byte>, inode: nat) returns (out: DirOut)
    requires IsDir(fs, n) && fs.size[n] < LIMIT && Legal(LinkOp(name, inode))
    modifies fs.zone, fs.size, fs.blocks, fs.bits, fs`owner, fs`leaked, fs`bad
    ensures IsDir(fs, n) && DirKept(old(fs.St()), fs.St(), n) && fs.size[n] <= old(fs.size[n]) + 16
    ensures |Cut(name)| <= NAME_LEN && var es := old(EntriesOf(fs, n));
              && EntriesOf(fs, n) == (if out == Done then Put(es, FirstFree(es), Entry(inode, Pad(Cut(name)))) else es)
              && (out == Done || out == NoSpace || out == Crash)
    ensures Added(old(fs.St()), fs.St(), n, FirstFree(old(EntriesOf(fs, n))), out == Done, out == Crash)
    ensures var es := old(EntriesOf(fs, n)); out != Done && FirstFree(es) < |es| ==> !Sees(old(fs.St()), n, FirstFree(es))
    ensures out == Done ==> Written(fs.St(), n, FirstFree(old(EntriesOf(fs, n))), name, inode)
  {
    hide TreeInv, At, PosOf, EntryAt, ByteAt, Whole, Stored, SameAt, IsDir, EntriesOf, Entries, FirstFree;
    hide OthersSame, Grown, EntriesOk, ValidName, Kept, Sees, Blocked, AllUsed, DirKept, Added, Written;
    DirFacts(fs, n);
    LegalName(name);
    ghost var s, es := fs.St(), EntriesOf(fs, n);
    var z, k, ok, wild := AddEntry(fs, n, name);
    DirFacts(fs, n);
    if !ok {
      DirKeptGrown(s, fs.St(), n);
      return if wild then Crash else NoSpace;
    }
    ghost var s1, e := fs.St(), Entry(0, Pad(Cut(name)));
    DirKeptStored(s, s1, n, 16 * k, Raw(e));
    SetInode(fs, n, z, k, inode);
    DirFacts(fs, n);
    ghost var f :| EntryOk(f) && Stored(s1, fs.St(), n, 16 * k, Raw(f));
    DirKeptStored(s1, fs.St(), n, 16 * k, Raw(f));
    DirKeptTrans(s, s1, fs.St(), n);
    AddedOn(s, s1, fs.St(), n, k);
    EntryOf(fs, n, k);
    WrittenIs(fs.St(), n, k, name, inode);
    out := Done;
  }

  /** As open with O_CREAT, or link, does: look first, then add the entry and give it its inode. */
  method Link(fs: FileSystem, n: nat, name: seq<Byte>, inode: nat, ghost m: map<seq<Byte>, nat>)
    returns (out: DirOut, ghost t: map<seq<Byte>, nat>)
    requires IsDir(fs, n) && fs.size[n] < LIMIT && Legal(LinkOp(name, inode))
    modifies fs.zone, fs.size, fs.blocks, fs.bits, fs`owner, fs`leaked, fs`bad
    ensures IsDir(fs, n) && DirKept(old(fs.St()), fs.St(), n) && fs.size[n] <= old(fs.size[n]) + 16
    ensures Outcome(old(fs.St()), fs.St(), n, old(EntriesOf(fs, n)), EntriesOf(fs, n), m, LinkOp(name, inode), out, t)
  {
    hide TreeInv, At, PosOf, EntryAt, ByteAt, Whole, IsDir, EntriesOf, Entries, StandsFor, Find, FirstFree;
    hide OthersSame, EntriesOk, ValidName, Sees, Blocked, AllUsed, DirKept, Outcome, Searched, Added;
    DirFacts(fs, n);
    LegalName(name);
    ghost var s, es := fs.St(), EntriesOf(fs, n);
    DirKeptSelf(s, n);
    var z, k, found, wild := FindEntry(fs, n, name);
    t := m;
    if wild {
      out := Crash;
      CrashOutcome(s, n, es, m, LinkOp(name, inode), k);
    } else if found {
      out := Exists;
      ExistsOutcome(s, n, es, m, name, inode, k);
    } else {
      out := AddLink(fs, n, name, inode);
      DirFacts(fs, n);
      if out == Done { t := m[Cut(name) := inode]; }
      LinkOutcome(s, fs.St(), n, es, EntriesOf(fs, n), m, name, inode, k, out, t);
    }
  }

  /** unlink: the entry loses its inode number. */
  method Unlink(fs: FileSystem, n: nat, name: seq<Byte>, ghost m: map<seq<Byte>, nat>)
    returns (out: DirOut, ghost t: map<seq<Byte>, nat>)
    requires IsDir(fs, n) && Legal(UnlinkOp(name))
    modifies fs.zone, fs.blocks, fs.bits, fs`owner, fs`leaked, fs`bad
    ensures IsDir(fs, n) && DirKept(old(fs.St()), fs.St(), n)
    ensures Outcome(old(fs.St()), fs.St(), n, old(EntriesOf(fs, n)), EntriesOf(fs, n), m, UnlinkOp(name), out, t)
  {
    hide TreeInv, At, PosOf, EntryAt, ByteAt, Whole, Stored, IsDir, EntriesOf, Entries, StandsFor, Find;
    hide OthersSame, EntriesOk, ValidName, Sees, Blocked, AllUsed, DirKept, Outcome, Kept, Searched;
    DirFacts(fs, n);
    LegalName(name);
    ghost var s, es := fs.St(), EntriesOf(fs, n);
    DirKeptSelf(s, n);
    var z, k, found, wild := FindEntry(fs, n, name);
    t := m;
    if wild {
      out := Crash;
      CrashOutcome(s, n, es, m, UnlinkOp(name), k);
    } else if !found {
      out := Missing;
      MissingOutcome(s, n, es, m, UnlinkOp(name), k);
    } else {
      FoundIndex(s, n, es, name, k);
      SetInode(fs, n, z, k, 0);
      DirFacts(fs, n);
      ghost var f :| EntryOk(f) && Stored(s, fs.St(), n, 16 * k, Raw(f));
      DirKeptStored(s, fs.St(), n, 16 * k, Raw(f));
      out, t := Done, m - {Cut(name)};
      UnlinkOutcome(s, fs.St(), n, es, EntriesOf(fs, n), m, name, k, t);
    }
  }

  method FindInode(fs: FileSystem, n: nat, name: seq<Byte>, ghost m: map<seq<Byte>, nat>) returns (out: DirOut)
    requires IsDir(fs, n) && Legal(FindOp(name))
    modifies fs.zone, fs.blocks, fs.bits, fs`owner, fs`leaked, fs`bad
    ensures IsDir(fs, n) && fs.St() == old(fs.St()) && DirKept(old(fs.St()), fs.St(), n)
    ensures EntriesOf(fs, n) == old(EntriesOf(fs, n))
    ensures Outcome(old(fs.St()), fs.St(), n, old(EntriesOf(fs, n)), EntriesOf(fs, n), m, FindOp(name), out, m)
  {
    hide TreeInv, At, PosOf, Whole, IsDir, EntriesOf, Entries, StandsFor, Find;
    hide Sees, Blocked, AllUsed, DirKept, Outcome, Searched, Added;
    DirFacts(fs, n);
    ghost var s, es := fs.St(), EntriesOf(fs, n);
    LegalName(name);
    DirKeptSelf(s, n);
    var z, k, found, wild := FindEntry(fs, n, name);
    DirFacts(fs, n);
    if wild {
      CrashOutcome(s, n, es, m, FindOp(name), k);
      return Crash;
    }
    if !found {
      MissingOutcome(s, n, es, m, FindOp(name), k);
      return Missing;
    }
    FoundIndex(s, n, es, name, k);
    ZoneOf(fs.St(), n, k / PER_BLOCK);
    EntryInBlock(fs.St(), n, k);
    EntryOf(fs, n, k);
    out := Is(EntryIn(fs.blocks[z], k % PER_BLOCK).inode);
    FindOutcome(s, n, es, m, name, k, out);
  }

  /** A link that does not find the name of the directory, and finds room for it. */
  ghost predicate Doubles(s: Fs, n: nat, es: seq<Entry>, op: DirOp)
    requires Shape(s) && n < |s.tree| && s.tree[n] && EntriesOk(es)
  {
    op.LinkOp? && Missed(s, n, es, op.name) && Sees(s, n, FirstFree(es))
  }

  /** What may come of an operation. It is a step on the map unless the search misses the name, or the kernel goes on with a
      null pointer. Names stay unique if and only if no name is doubled. The kernel goes on with a null pointer only when some
      block cannot be read, and has no space only when one cannot be read or no zone is free. */
  ghost predicate Outcome(s: Fs, s': Fs, n: nat, es: seq<Entry>, es': seq<Entry>, m: map<seq<Byte>, nat>,
                          op: DirOp, out: DirOut, t: map<seq<Byte>, nat>)
  {
    && Shape(s) && Shape(s') && n < |s.tree| && s.tree[n] && EntriesOk(es)
    && (StandsFor(es, m) && !Missed(s, n, es, op.name) && out != Crash ==> StandsFor(es', t) && MapStep(m, op, out, t))
    && (Unique(es) ==> (Unique(es') <==> !Doubles(s, n, es, op)))
    && (Missed(s, n, es, op.name) ==> if op.LinkOp? then (out == Done <==> Doubles(s, n, es, op)) else out == Missing)
    && (Missed(s, n, es, op.name) && out != Done ==> es' == es)
    && (out == Crash ==> !Sees(s, n, |es|) && es' == es)
    && (out == NoSpace ==> es' == es && (!Sees(s, n, |es|) || AllUsed(s')))
  }

  /** On a directory that can be read a name is never missed. */
  lemma NotMissed(s: Fs, n: nat, es: seq<Entry>, name: seq<Byte>)
    requires Shape(s) && n < |s.tree| && s.tree[n] && EntriesOk(es) && Sees(s, n, |es|)
    ensures !Missed(s, n, es, name)
  {
    hide Blocked;
    SeenAll(s, n, |es|);
  }

  lemma FoundIndex(s: Fs, n: nat, es: seq<Entry>, name: seq<Byte>, k: nat)
    requires Searched(s, n, es, name, k, true, false)
    ensures k < |es|
  {
  }

  lemma SeesLess(s: Fs, n: nat, k: nat, l: nat)
    requires Shape(s) && n < |s.tree| && s.tree[n] && k <= l
    ensures Sees(s, n, l) ==> Sees(s, n, k)
  {
    hide Blocked;
  }

  lemma CrashOutcome(s: Fs, n: nat, es: seq<Entry>, m: map<seq<Byte>, nat>, op: DirOp, j: nat)
    requires Searched(s, n, es, op.name, j, false, true)
    ensures Outcome(s, s, n, es, es, m, op, Crash, m)
  {
    hide StandsFor, Find, Unique, Blocked, Sees;
    var k, last := Find(es, Cut(op.name)), LastBlock(|es|);
    SeesLess(s, n, if k < last then k else last - 1, |es|);
  }

  lemma ExistsOutcome(s: Fs, n: nat, es: seq<Entry>, m: map<seq<Byte>, nat>, name: seq<Byte>, inode: nat, k: nat)
    requires Searched(s, n, es, name, k, true, false) && Legal(LinkOp(name, inode))
    ensures Outcome(s, s, n, es, es, m, LinkOp(name, inode), Exists, m)
  {
    if StandsFor(es, m) { FoundIn(es, m, Cut(name)); }
    hide StandsFor, Find, Sees, Blocked, Unique, Wild;
  }

  lemma MissingOutcome(s: Fs, n: nat, es: seq<Entry>, m: map<seq<Byte>, nat>, op: DirOp, k: nat)
    requires Searched(s, n, es, op.name, k, false, false) && Legal(op) && !op.LinkOp?
    ensures Outcome(s, s, n, es, es, m, op, Missing, m)
  {
    LegalName(op.name);
    hide Find, Sees, Blocked, Wild, Unique;
    if StandsFor(es, m) { FoundIn(es, m, Cut(op.name)); }
    hide StandsFor;
  }

  /** A search that found nothing, and was not wild: the name is absent, or missed. */
  lemma LinkOutcome(s: Fs, s': Fs, n: nat, es: seq<Entry>, es': seq<Entry>, m: map<seq<Byte>, nat>,
                    name: seq<Byte>, inode: nat, k: nat, out: DirOut, t: map<seq<Byte>, nat>)
    requires Searched(s, n, es, name, k, false, false) && Legal(LinkOp(name, inode)) && |Cut(name)| <= NAME_LEN
    requires Added(s, s', n, FirstFree(es), out == Done, out == Crash)
    requires out != Done && FirstFree(es) < |es| ==> !Sees(s, n, FirstFree(es))
    requires es' == if out == Done then Put(es, FirstFree(es), Entry(inode, Pad(Cut(name)))) else es
    requires out == Done || out == NoSpace || out == Crash
    requires t == if out == Done then m[Cut(name) := inode] else m
    ensures Outcome(s, s', n, es, es', m, LinkOp(name, inode), out, t)
  {
    LegalName(name);
    LinkDone(s, s', n, es, name, inode, k, out);
    NotFound(s, n, es, name, k);
    assert Shape(s) && Shape(s') && n < |s.tree| && s.tree[n] && EntriesOk(es);
    hide StandsFor, Put, Find, Sees, Blocked, Wild, Unique, Missed, Lookup, Searched, Added, AllUsed, FirstFree, MapStep, Shape;
    hide EntriesOk, Legal, Doubles, Cut, Pad;
    if Unique(es) && out == Done { UniqueIf(es, FirstFree(es), Cut(name), inode); }
    if StandsFor(es, m) && !Missed(s, n, es, name) { LinkStep(es, es', m, name, inode, out, t); }
  }

  lemma LinkStep(es: seq<Entry>, es': seq<Entry>, m: map<seq<Byte>, nat>, name: seq<Byte>, inode: nat, out: DirOut,
                 t: map<seq<Byte>, nat>)
    requires StandsFor(es, m) && EntriesOk(es) && Find(es, Cut(name)) == |es|
    requires Legal(LinkOp(name, inode)) && |Cut(name)| <= NAME_LEN
    requires es' == if out == Done then Put(es, FirstFree(es), Entry(inode, Pad(Cut(name)))) else es
    requires out == Done || out == NoSpace || out == Crash
    requires t == if out == Done then m[Cut(name) := inode] else m
    ensures out != Crash ==> StandsFor(es', t) && MapStep(m, LinkOp(name, inode), out, t)
  {
    hide StandsFor, Put, Find, FirstFree, EntriesOk;
    FoundIn(es, m, Cut(name));
    LinkMap(es, m, Cut(name), inode);
  }

  lemma UniqueIf(es: seq<Entry>, k: nat, name: seq<Byte>, inode: nat)
    requires EntriesOk(es) && Unique(es) && k == FirstFree(es) && ValidName(name) && 0 < inode < 0x1_0000
    ensures Unique(Put(es, k, Entry(inode, Pad(name)))) <==> Find(es, name) == |es|
  {
    hide Unique, Put;
    UniqueIff(es, k, name, inode);
    LookupFind(es, name);
  }

  lemma NotFound(s: Fs, n: nat, es: seq<Entry>, name: seq<Byte>, k: nat)
    requires Searched(s, n, es, name, k, false, false) && name != []
    ensures Find(es, Cut(name)) < |es| <==> Missed(s, n, es, name)
  {
    hide Find, Sees, Blocked;
  }

  lemma LookupFind(es: seq<Entry>, name: seq<Byte>)
    requires EntriesOk(es)
    ensures Lookup(es, name) == 0 <==> Find(es, name) == |es|
  {
  }

  /** Where a name that was missed can be entered, there is a free entry before it, and so there is space. */
  lemma LinkDone(s: Fs, s': Fs, n: nat, es: seq<Entry>, name: seq<Byte>, inode: nat, k: nat, out: DirOut)
    requires Searched(s, n, es, name, k, false, false) && Added(s, s', n, FirstFree(es), out == Done, out == Crash)
    requires out != Done && FirstFree(es) < |es| ==> !Sees(s, n, FirstFree(es))
    ensures Missed(s, n, es, name) ==> (out == Done <==> Doubles(s, n, es, LinkOp(name, inode)))
    ensures out == Crash || out == NoSpace ==> !Sees(s, n, |es|) || (out == NoSpace && AllUsed(s'))
  {
    hide Find, Sees, Blocked, Wild, AllUsed;
    SeesLess(s, n, FirstFree(es), |es|);
    SeesLess(s, n, Find(es, Cut(name)), |es|);
  }

  lemma UnlinkOutcome(s: Fs, s': Fs, n: nat, es: seq<Entry>, es': seq<Entry>, m: map<seq<Byte>, nat>,
                      name: seq<Byte>, k: nat, t: map<seq<Byte>, nat>)
    requires Searched(s, n, es, name, k, true, false) && Shape(s') && Legal(UnlinkOp(name))
    requires k < |es| && es' == es[k := es[k].(inode := 0)]
    requires t == m - {Cut(name)}
    ensures Outcome(s, s', n, es, es', m, UnlinkOp(name), Done, t)
  {
    hide Find, Sees, Blocked;
    if StandsFor(es, m) {
      FoundIn(es, m, Cut(name));
      UnlinkMap(es, m, Cut(name));
    }
    hide StandsFor;
  }

  lemma FindOutcome(s: Fs, n: nat, es: seq<Entry>, m: map<seq<Byte>, nat>, name: seq<Byte>, k: nat, out: DirOut)
    requires Searched(s, n, es, name, k, true, false) && Legal(FindOp(name)) && k < |es| && out == Is(es[k].inode)
    ensures Outcome(s, s, n, es, es, m, FindOp(name), out, m)
  {
    hide Find, Sees, Blocked;
    if StandsFor(es, m) { FoundIn(es, m, Cut(name)); }
    hide StandsFor;
  }

  lemma LegalName(name: seq<Byte>)
    requires ValidName(Cut(name))
    ensures name != [] && |Cut(name)| <= NAME_LEN
  {
  }

  // ---------- Long names ----------

  function Renamed(op: DirOp, name: seq<Byte>): DirOp {
    match op
    case FindOp(_) => FindOp(name)
    case LinkOp(_, inode) => LinkOp(name, inode)
    case UnlinkOp(_) => UnlinkOp(name)
  }

  /** Names that agree on their first 14 bytes are the same name to every operation: on the map, in a search, and in what may
      come of it on the disk. */
  lemma SameName(op: DirOp, name: seq<Byte>)
    requires Alike(op.name, name)
    ensures forall m, out, t :: MapStep(m, Renamed(op, name), out, t) <==> MapStep(m, op, out, t)
    ensures forall s, n, es, k, found, wild ::
              Searched(s, n, es, name, k, found, wild) <==> Searched(s, n, es, op.name, k, found, wild)
    ensures forall s, s', n, es, es', m, out, t ::
              Outcome(s, s', n, es, es', m, Renamed(op, name), out, t) <==> Outcome(s, s', n, es, es', m, op, out, t)
  {
    CutAlike(op.name, name);
    assert name == [] <==> op.name == [];
    hide Find, Sees, Blocked, StandsFor, Unique, AllUsed, Cut, FirstFree, LastBlock;
  }

  // ---------- A name entered twice ----------

  /** A directory of two blocks, 65 entries. Entry 64, alone in the second block, is `a`; the others are free. The second block
      cannot be read. */
  function TwoBlocks(): Fs {
    Fs([[1, 2, 0, 0, 0, 0, 0, 0, 0]], [true], [ZeroBlock(), ZeroBlock(), ZeroBlock()[0 := 1][2 := 97]],
       seq(8192, _ => true), 1, 3, map[1 := Place(0, Zone(0)), 2 := Place(0, Zone(1))], {}, {}, {2})
  }

  lemma {:induction false} TwoBlocksAt(pl: Place)
    requires IsPlace(TwoBlocks(), pl)
    ensures At(TwoBlocks(), pl) == if pl.pos == Zone(0) then 1 else if pl.pos == Zone(1) then 2 else 0
    ensures !Hidden(TwoBlocks(), pl)
    decreases if pl.pos.Leaf? then 2 else if pl.pos.Zone? then 0 else 1
  {
    if !pl.pos.Zone? { TwoBlocksAt(Place(pl.n, Parent(pl.pos))); }
  }

  lemma TwoBlocksOk()
    ensures TreeInv(TwoBlocks()) && Whole(TwoBlocks(), 0, 65)
  {
    var s := TwoBlocks();
    forall pl | IsPlace(s, pl) ensures PlaceOk(s, pl) { TwoBlocksAt(pl); }
    forall z | z in s.owner ensures OwnerOk(s, z) { TwoBlocksAt(s.owner[z]); }
    forall b: nat | b < MAX_BLOCKS && PER_BLOCK * b < 65 ensures At(s, Place(0, PosOf(b))) != 0 {
      TwoBlocksAt(Place(0, PosOf(b)));
    }
    TwoBlocksAt(Place(0, PosOf(0)));
  }

  lemma TwoBlocksEntry(i: nat)
    requires i < 65
    ensures EntryAt(TwoBlocks(), 0, i).inode == if i == 64 then 1 else 0
    ensures i == 64 ==> EntryAt(TwoBlocks(), 0, i).name == Pad([97])
  {
    var s := TwoBlocks();
    TwoBlocksAt(Place(0, PosOf(i / PER_BLOCK)));
    EntryBlock(i);
    EntryInBlock(s, 0, i);
    if i == 64 {
      assert EntryIn(s.blocks[2], 0).name == Pad([97]);
    }
  }

  lemma TwoBlocksSeen()
    ensures Shape(TwoBlocks()) && Sees(TwoBlocks(), 0, 63) && Sees(TwoBlocks(), 0, 0) && !Blocked(TwoBlocks(), 0, 0)
    ensures !Sees(TwoBlocks(), 0, 64)
  {
    var s := TwoBlocks();
    TwoBlocksAt(Place(0, Zone(0)));
    TwoBlocksAt(Place(0, Zone(1)));
    assert PosOf(0) == Zone(0) && PosOf(1) == Zone(1);
    forall p | 0 <= p < 1024 ensures !Blocked(s, 0, p) { assert p / BLOCK_SIZE == 0; }
    assert Blocked(s, 0, 1024) && 1024 <= 16 * 64;
  }

  lemma OneEntry(es: seq<Entry>, name: seq<Byte>)
    requires EntriesOk(es) && |es| == 65 && ValidName(name)
    requires forall i | 0 <= i < 65 :: es[i].inode == (if i == 64 then 1 else 0) && (i == 64 ==> es[i].name == Pad(name))
    ensures Unique(es) && Lookup(es, name) == 1 && Find(es, name) == 64 && FirstFree(es) == 0
  {
    PadShown(name);
    LookupIs(es, name, 64);
    FirstFreeIs(es, 0);
  }

  /** There, linking `a` again does not find it, uses the first free entry, and enters the name a second time. */
  lemma NameDoubled()
    ensures var s := TwoBlocks();
            && TreeInv(s) && Whole(s, 0, 65)
            && var es := Entries(s, 0, 65);
               && Unique(es) && Lookup(es, [97]) == 1
               && Doubles(s, 0, es, LinkOp([97], 7)) && !Unique(Put(es, FirstFree(es), Entry(7, Pad([97]))))
  {
    TwoBlocksOk();
    TwoBlocksSeen();
    var s := TwoBlocks();
    assert 0 < |s.tree| && s.tree[0] && 16 * 65 <= LIMIT;
    var es := Entries(s, 0, 65);
    forall i | 0 <= i < 65 ensures es[i].inode == (if i == 64 then 1 else 0) && (i == 64 ==> es[i].name == Pad([97])) {
      TwoBlocksEntry(i);
    }
    assert ValidName([97]) && Cut([97]) == [97] && LastBlock(65) == 64;
    hide TwoBlocks, Entries, Whole, TreeInv, Shape, Sees, Blocked, EntryAt, Find, FirstFree, Unique, Lookup, Pad, Put;
    OneEntry(es, [97]);
    UniqueIff(es, FirstFree(es), [97], 7);
  }

  // ---------- Runs ----------

  ghost predicate MapRun(m: map<seq<Byte>, nat>, ops: seq<DirOp>, outs: seq<DirOut>, t: map<seq<Byte>, nat>)
    decreases |ops|
  {
    if ops == [] then outs == [] && t == m
    else outs != [] && exists u :: MapStep(m, ops[0], outs[0], u) && MapRun(u, ops[1..], outs[1..], t)
  }

  /** Nothing but the names that are linked or unlinked changes over a run on a map. */
  lemma {:induction false} NamesStay(m: map<seq<Byte>, nat>, ops: seq<DirOp>, outs: seq<DirOut>, t: map<seq<Byte>, nat>,
                                     name: seq<Byte>)
    requires MapRun(m, ops, outs, t)
    requires forall i | 0 <= i < |ops| :: !Alike(ops[i].name, name) || ops[i].FindOp?
    ensures Cut(name) in t <==> Cut(name) in m
    ensures Cut(name) in m ==> t[Cut(name)] == m[Cut(name)]
    decreases |ops|
  {
    if ops != [] {
      var u :| MapStep(m, ops[0], outs[0], u) && MapRun(u, ops[1..], outs[1..], t);
      CutAlike(ops[0].name, name);
      hide Cut, Alike;
      NamesStay(u, ops[1..], outs[1..], t, name);
    }
  }

  /** After a link that is done, and operations on other names, looking the name up gives its inode. */
  lemma LinkThenFind(m: map<seq<Byte>, nat>, name: seq<Byte>, inode: nat, m1: map<seq<Byte>, nat>, ops: seq<DirOp>,
                     outs: seq<DirOut>, m2: map<seq<Byte>, nat>, again: seq<Byte>, out: DirOut, t: map<seq<Byte>, nat>)
    requires MapStep(m, LinkOp(name, inode), Done, m1) && MapRun(m1, ops, outs, m2)
    requires forall i | 0 <= i < |ops| :: !Alike(ops[i].name, name) || ops[i].FindOp?
    requires Alike(again, name) && MapStep(m2, FindOp(again), out, t)
    ensures out == Is(inode)
  {
    NamesStay(m1, ops, outs, m2, name);
    CutAlike(again, name);
    hide Cut, Alike, MapRun;
  }

  /** After an unlink that is done, and operations on other names, the name is missing. */
  lemma UnlinkThenFind(m: map<seq<Byte>, nat>, name: seq<Byte>, m1: map<seq<Byte>, nat>, ops: seq<DirOp>,
                       outs: seq<DirOut>, m2: map<seq<Byte>, nat>, again: seq<Byte>, out: DirOut, t: map<seq<Byte>, nat>)
    requires MapStep(m, UnlinkOp(name), Done, m1) && MapRun(m1, ops, outs, m2)
    requires forall i | 0 <= i < |ops| :: !Alike(ops[i].name, name) || ops[i].FindOp?
    requires Alike(again, name) && MapStep(m2, FindOp(again), out, t)
    ensures out == Missing
  {
    NamesStay(m1, ops, outs, m2, name);
    CutAlike(again, name);
    hide Cut, Alike, MapRun;
  }

  /** A link is refused exactly when the name is there, and an unlink when it is not. */
  lemma DoneIff(m: map<seq<Byte>, nat>, op: DirOp, out: DirOut, t: map<seq<Byte>, nat>, found: DirOut, u: map<seq<Byte>, nat>)
    requires Legal(op) && MapStep(m, op, out, t) && MapStep(m, FindOp(op.name), found, u)
    ensures op.LinkOp? ==> (out == Exists <==> found.Is?) && (out == Exists || out == Done || out == NoSpace)
    ensures op.UnlinkOp? ==> (out == Missing <==> found == Missing) && (out == Missing || out == Done)
    ensures u == m && (out != Done ==> t == m)
  {
    hide Cut;
  }

  /** On a directory whose zones can all be read. */
  ghost predicate Good(fs: FileSystem, n: nat, m: map<seq<Byte>, nat>)
    requires IsDir(fs, n)
    reads fs, fs.zone, fs.tree, fs.size, fs.blocks, fs.bits
  {
    StandsFor(EntriesOf(fs, n), m) && Readable(fs.St(), n)
  }

  method Do(fs: FileSystem, n: nat, op: DirOp, ghost m: map<seq<Byte>, nat>)
    returns (out: DirOut, ghost t: map<seq<Byte>, nat>)
    requires IsDir(fs, n) && fs.size[n] + 16 <= LIMIT
    modifies fs.zone, fs.size, fs.blocks, fs.bits, fs`owner, fs`leaked, fs`bad
    ensures IsDir(fs, n) && fs.size[n] <= old(fs.size[n]) + 16 && DirKept(old(fs.St()), fs.St(), n)
    ensures old(Good(fs, n, m)) ==> Good(fs, n, t) && MapStep(m, op, out, t) && (out == NoSpace ==> fs.Full())
    ensures old(fs.Full()) ==> fs.Full()
  {
    hide TreeInv, At, Whole, IsDir, EntriesOf, Entries, StandsFor, ValidName, OthersSame, DirKept, Outcome;
    hide AllUsed, Readable, Blocked, Sees;
    DirFacts(fs, n);
    ghost var s, es := fs.St(), EntriesOf(fs, n);
    t := m;
    var legal := ValidName(Cut(op.name)) && (op.LinkOp? ==> 0 < op.inode < 0x1_0000);
    if !legal {
      DirKeptSelf(s, n);
      return Refused, m;
    }
    match op {
      case FindOp(name) => out := FindInode(fs, n, name, m);
      case LinkOp(name, inode) => out, t := Link(fs, n, name, inode, m);
      case UnlinkOp(name) => out, t := Unlink(fs, n, name, m);
    }
    DirFacts(fs, n);
    GoodStep(s, fs.St(), n, es, EntriesOf(fs, n), m, op, out, t);
  }

  lemma GoodStep(s: Fs, s': Fs, n: nat, es: seq<Entry>, es': seq<Entry>, m: map<seq<Byte>, nat>,
                 op: DirOp, out: DirOut, t: map<seq<Byte>, nat>)
    requires DirKept(s, s', n) && Outcome(s, s', n, es, es', m, op, out, t)
    ensures StandsFor(es, m) && Readable(s, n) ==>
              StandsFor(es', t) && Readable(s', n) && MapStep(m, op, out, t) && (out == NoSpace ==> AllUsed(s'))
    ensures AllUsed(s) ==> AllUsed(s')
  {
    hide TreeInv, StandsFor, Sees, Blocked, Kept, OthersSame, AllUsed, Readable, Missed, Doubles, Unique, FirstFree;
    if Readable(s, n) {
      ReadableSees(s, n, |es|);
      NotMissed(s, n, es, op.name);
      ReadableKept(s, s', n);
    }
    if AllUsed(s) { FullKept(s, s'); }
  }

  /** Every run on a directory whose zones can be read is a run on a map; an operation lacks space only when no zone is free,
      and none is at the end. Directory and other files are as they should be in any case. */
  method Run(fs: FileSystem, n: nat, ops: seq<DirOp>, ghost m: map<seq<Byte>, nat>)
    returns (outs: seq<DirOut>, ghost t: map<seq<Byte>, nat>)
    requires IsDir(fs, n) && fs.size[n] + 16 * |ops| <= LIMIT
    modifies fs.zone, fs.size, fs.blocks, fs.bits, fs`owner, fs`leaked, fs`bad
    ensures IsDir(fs, n) && DirKept(old(fs.St()), fs.St(), n)
    ensures old(Good(fs, n, m)) ==> Good(fs, n, t) && MapRun(m, ops, outs, t) && (NoSpace in outs ==> fs.Full())
    ensures old(fs.Full()) ==> fs.Full()
    decreases |ops|
  {
    hide TreeInv, At, Whole, IsDir, EntriesOf, Entries, StandsFor, OthersSame, MapStep, DirKept, Good, AllUsed;
    DirFacts(fs, n);
    ghost var s := fs.St();
    DirKeptSelf(s, n);
    if ops == [] { return [], m; }
    var out, rest;
    ghost var u;
    out, u := Do(fs, n, ops[0], m);
    DirFacts(fs, n);
    ghost var s1 := fs.St();
    rest, t := Run(fs, n, ops[1..], u);
    DirKeptTrans(s, s1, fs.St(), n);
    outs := [out] + rest;
    assert outs[1..] == rest;
  }
}
