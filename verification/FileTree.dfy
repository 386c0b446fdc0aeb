/** fs/bitmap.c, the block mapping of fs/inode.c, fs/truncate.c and fs/file_dev.c over one file system. Blocks are
    reached directly, as the buffer cache makes them appear; reading an index or data block may fail. */
module FileTree {
  import opened Collections
  import opened FsState
  import opened FsSteps
  import opened FsFiles
  import opened FsTruncate

  const ERROR := 99

  predicate SameShape(s: Fs, s': Fs) {
    |s'.zone| == |s.zone| && s'.tree == s.tree && s'.nzones == s.nzones && s'.blocks == s.blocks
  }

  class FileSystem {
    const zone: array<seq<nat>>   // i_zone[9] of every inode
    const tree: array<bool>       // S_ISREG(i_mode) || S_ISDIR(i_mode)
    const size: array<nat>        // i_size
    const blocks: array<Block>    // zone contents, by zone number
    const bits: array<bool>       // the zone bitmap: 8192 bits for each of up to 8 bitmap blocks
    const first: nat              // s_firstdatazone
    const nzones: nat             // s_nzones
    var bad: set<nat>             // zones that cannot be read
    ghost var owner: map<nat, Place>
    ghost var leaked: set<nat>
    ghost var dead: set<Place>

    ghost function St(): (s: Fs)
      reads this, zone, tree, blocks, bits
      ensures s.dead == dead && s.owner == owner && s.leaked == leaked && s.nzones == nzones && s.bad == bad
    {
      Fs(zone[..], tree[..], blocks[..], bits[..], first, nzones, owner, leaked, dead, bad)
    }

    ghost predicate Parts()
    {
      && tree != bits && size.Length == zone.Length == tree.Length
      && bits.Length % 8192 == 0 && bits.Length <= 8 * 8192
    }

    ghost predicate Valid()
      reads this, zone, tree, blocks, bits
    {
      Parts() && TreeInv(St()) && dead == {}
    }

    /** A file system without any blocks in use: bit 0 of the zone bitmap and the bits past the last zone are set. */
    constructor (kinds: seq<bool>, firstZone: nat, zones: nat, slots: nat, unreadable: set<nat>)
      requires 1 <= firstZone <= zones < 0x1_0000 && zones - firstZone + 1 <= 8192 * slots && slots <= 8
      ensures Valid() && bad == unreadable && tree[..] == kinds && owner == map[] && leaked == {}
      ensures fresh(zone) && fresh(tree) && fresh(size) && fresh(blocks) && fresh(bits)
      ensures forall n | 0 <= n < |kinds| :: Files()[n] == if kinds[n] then Flat(seq(LIMIT, _ => 0), 0) else NoFile
    {
      var empty: seq<nat> := seq(9, _ => 0);
      zone := new seq<nat>[|kinds|](_ => empty);
      tree := new bool[|kinds|](i requires 0 <= i < |kinds| => kinds[i]);
      size := new nat[|kinds|](_ => 0);
      blocks := new Block[zones];
      bits := new bool[8192 * slots](i => i == 0 || i > zones - firstZone);
      first, nzones, bad := firstZone, zones, unreadable;
      owner, leaked, dead := map[], {}, {};
      new;
      assert tree[..] == kinds;
      EmptyInv(St());
      EmptyFiles(St(), size[..]);
    }

    ghost predicate IsFile(n: nat)
      reads tree
    {
      n < tree.Length && tree[n]
    }

    /** No zone is free. */
    ghost predicate Full()
      requires Valid()
      reads this, zone, tree, blocks, bits
    {
      AllUsed(St())
    }

    /** Reading a block. */
    method Bread(z: nat) returns (ok: bool)
      ensures ok <==> z !in bad
    {
      ok := z !in bad;
    }

    /** The first zero bit of bitmap block `slot`, or 8192. */
    method FindFirstZero(slot: nat) returns (j: nat)
      requires (slot + 1) * 8192 <= bits.Length
      ensures j <= 8192 && (j < 8192 ==> !bits[slot * 8192 + j])
      ensures forall b | slot * 8192 <= b < slot * 8192 + j :: bits[b]
    {
      j := 0;
      while j < 8192 && bits[slot * 8192 + j]
        invariant slot * 8192 + 8192 <= bits.Length
        invariant 0 <= j <= 8192
        invariant forall b | slot * 8192 <= b < slot * 8192 + j :: bits[b]
      {
        j := j + 1;
      }
    }

    /** The first zero bit of the whole bitmap, block by block. */
    method FindBit() returns (found: bool, bit: nat)
      requires Parts()
      ensures found ==> bit < bits.Length && !bits[bit] && forall k | 0 <= k < bit :: bits[k]
      ensures !found ==> forall k | 0 <= k < bits.Length :: bits[k]
    {
      var slots := bits.Length / 8192;
      var i := 0;
      while i < 8
        invariant 0 <= i <= 8
        invariant forall k | 0 <= k < i * 8192 && k < bits.Length :: bits[k]
      {
        if i < slots {
          assert (i + 1) * 8192 <= bits.Length;
          var j := FindFirstZero(i);
          if j < 8192 { return true, i * 8192 + j; }
        }
        i := i + 1;
      }
      return false, 0;
    }

    /** Takes the first free zone and clears it; 0 when there is none. A bit beyond the last zone may be used up. */
    method NewBlock() returns (z: nat)
      requires Valid()
      modifies bits, blocks, `leaked, `bad
      ensures Valid()
      ensures z != 0 ==> DataZone(old(St()), z) && !BitOf(old(St()), z) && St() == Alloc(old(St()), z)
      ensures z != 0 ==> forall y: nat | DataZone(old(St()), y) && y < z :: BitOf(old(St()), y)
      ensures z == 0 ==> Full() && SameAt(old(St()), St()) && St() == old(St()).(bits := bits[..])
    {
      ghost var s := St();
      var found, bit := FindBit();
      if !found {
        assert forall y: nat | DataZone(s, y) :: y - first + 1 < bits.Length && bits[y - first + 1];
        PaddingInv(s, s);
        return 0;
      }
      assert s.bits[0];
      bits[bit] := true;
      assert bits[..] == s.bits[bit := true];
      if bit + first - 1 >= nzones {
        assert St() == s.(bits := bits[..]);
        PaddingInv(s, St());
        assert forall y: nat | DataZone(s, y) :: y - first + 1 < bit && bits[y - first + 1];
        return 0;
      }
      z := bit + first - 1;
      assert !BitOf(s, z);
      assert forall y: nat | DataZone(s, y) && y < z :: y - first + 1 < bit && s.bits[y - first + 1];
      AllocInv(s, z);
      blocks[z] := ZeroBlock();
      bad := bad - {z};
      leaked := leaked + {z};
      assert St() == Alloc(s, z);
    }

    /** Gives a zone back. Freeing a zone outside the data area, or one that is already free, is a panic. */
    method FreeBlock(z: nat) returns (panicked: bool)
      requires Shape(St())
      modifies bits
      ensures panicked <==> !DataZone(old(St()), z) || !BitOf(old(St()), z)
      ensures panicked ==> bits[..] == old(bits[..])
      ensures !panicked ==> bits[..] == old(bits[..])[z - first + 1 := false]
    {
      if z < first || z >= nzones { return true; }
      var bit := z - (first - 1);
      if !bits[bit] { return true; }
      bits[bit] := false;
      return false;
    }

    /** The arm of `_bmap` that fills an empty place: a new zone, whose number is stored in the inode or in
        the index block `block`. */
    method Grow(n: nat, pos: Pos, block: nat) returns (z: nat)
      requires Valid() && IsPlace(St(), Place(n, pos)) && At(St(), Place(n, pos)) == 0
      requires !pos.Zone? ==> block == At(St(), Place(n, Parent(pos))) && block != 0
      modifies zone, blocks, bits, `owner, `leaked, `bad
      ensures Valid() && Grown(old(St()), St())
      ensures IsPlace(St(), Place(n, pos)) && z == At(St(), Place(n, pos))
      ensures forall q | IsPlace(old(St()), q) && q != Place(n, pos) :: IsPlace(St(), q) && At(St(), q) == At(old(St()), q)
      ensures z == 0 ==> Full()
      ensures |owner| <= |old(owner)| + (if z == 0 then 0 else 1)
    {
      ghost var s := St();
      hide TreeInv, Grown, At, Alloc, Attach, CanAttach, AllUsed, SameAt, BitOf;
      z := NewBlock();
      if z == 0 {
        FullGrown(s, St());
        return;
      }
      ghost var pl := Place(n, pos);
      ghost var s1 := St();
      FreshZone(s, pl, z);
      AttachGrown(s, pl, z);
      AttachWords(s1, pl, z, block);
      StoreZone(n, pos, block, z);
      owner := owner[z := pl];
      leaked := leaked - {z};
      assert St() == Attach(s1, pl, z);
    }

    /** The number of a zone is stored in the inode, or in the index block. */
    method StoreZone(n: nat, pos: Pos, block: nat, z: nat)
      requires n < zone.Length && |zone[n]| == 9 && ValidPos(pos) && z < 0x1_0000 && (!pos.Zone? ==> block < blocks.Length)
      modifies zone, blocks
      ensures if pos.Zone? then blocks[..] == old(blocks[..]) && zone[..] == old(zone[..])[n := old(zone[n])[pos.i := z]]
              else zone[..] == old(zone[..])
                   && blocks[..] == old(blocks[..])[block := SetWord16(old(blocks[block]), Slot(pos), z)]
    {
      match pos {
        case Zone(i) => zone[n] := zone[n][i := z];
        case Ind(k) => blocks[block] := SetWord16(blocks[block], k, z);
        case Mid(k) => blocks[block] := SetWord16(blocks[block], k, z);
        case Leaf(_, l) => blocks[block] := SetWord16(blocks[block], l, z);
      }
    }

    /** `_bmap`: the zone of block `block` of a file, created if asked for. 0 when an index block on the way cannot be
        read, or when there is no zone and none is to be had. */
    method BmapOrCreate(n: nat, block: nat, create: bool) returns (z: nat)
      requires Valid() && IsFile(n) && block < MAX_BLOCKS
      modifies zone, blocks, bits, `owner, `leaked, `bad
      ensures Valid() && IsFile(n) && Grown(old(St()), St())
      ensures !create ==> St() == old(St())
      ensures Found(old(St()), St(), Place(n, PosOf(block)), z, create)
    {
      hide *;
      PosCases(block);
      if block < 7 {
        z := BmapDirect(n, block, create);
      } else if block - 7 < 512 {
        z := BmapInd(n, block - 7, create);
      } else {
        z := BmapDouble(n, (block - 519) / 512, (block - 519) % 512, create);
      }
    }

    /** The zone numbers kept in the inode. */
    method BmapDirect(n: nat, block: nat, create: bool) returns (z: nat)
      requires Valid() && IsFile(n) && block < 7
      modifies zone, blocks, bits, `owner, `leaked, `bad
      ensures Valid() && IsFile(n) && Grown(old(St()), St())
      ensures !create ==> St() == old(St())
      ensures Found(old(St()), St(), Place(n, Zone(block)), z, create)
    {
      ghost var s := St();
      HasSize(n);
      hide TreeInv, Grown, Found, At, AllUsed;
      z := Descend(n, Zone(block), 0, create);
      FoundTop(s, St(), n, block, z, create);
    }

    /** The part of `_bmap` that goes through the double-indirect block. */
    method BmapDouble(n: nat, k: nat, l: nat, create: bool) returns (z: nat)
      requires Valid() && IsFile(n) && k < 512 && l < 512
      modifies zone, blocks, bits, `owner, `leaked, `bad
      ensures Valid() && IsFile(n) && Grown(old(St()), St())
      ensures !create ==> St() == old(St())
      ensures Found(old(St()), St(), Place(n, Leaf(k, l)), z, create)
    {
      ghost var s := St();
      HasSize(n);
      hide TreeInv, Grown, Found, At, AllUsed;
      var dind := Descend(n, Zone(8), 0, create);
      z := BmapDind(s, n, k, l, dind, create);
    }

    /** The part of `_bmap` that goes through the single-indirect block. */
    method BmapInd(n: nat, b: nat, create: bool) returns (z: nat)
      requires Valid() && IsFile(n) && b < 512
      modifies zone, blocks, bits, `owner, `leaked, `bad
      ensures Valid() && IsFile(n) && Grown(old(St()), St())
      ensures !create ==> St() == old(St())
      ensures Found(old(St()), St(), Place(n, Ind(b)), z, create)
    {
      ghost var s := St();
      HasSize(n);
      hide TreeInv, Grown, Mapped, At, Hidden;
      var ind := Descend(n, Zone(7), 0, create);
      ghost var s1 := St();
      TopInSight(s, n, 7);
      if ind == 0 {
        MappedNone(s, s1, n, Ind(b));
        return 0;
      }
      var ok := Bread(ind);
      if !ok {
        MappedHidden(s, s1, n, Ind(b));
        return 0;
      }
      z := Descend(n, Ind(b), ind, create);
      MappedBelow(s, s1, St(), n, Ind(b), z);
    }

    /** The part of `_bmap` below the double-indirect block `dind`. */
    method BmapDind(ghost s: Fs, n: nat, k: nat, l: nat, dind: nat, create: bool) returns (z: nat)
      requires Valid() && IsFile(n) && k < 512 && l < 512 && dind == At(St(), Place(n, Zone(8)))
      requires TreeInv(s) && s.dead == {} && n < |s.tree| && s.tree[n] && Grown(s, St()) && (!create ==> St() == s)
      requires |owner| <= |s.owner| + (if dind == 0 then 0 else 1) && (dind == 0 && create ==> Full())
      modifies zone, blocks, bits, `owner, `leaked, `bad
      ensures Valid() && Grown(s, St())
      ensures !create ==> St() == s
      ensures Found(s, St(), Place(n, Leaf(k, l)), z, create)
    {
      ghost var s1 := St();
      hide TreeInv, Grown, Mapped, At, Hidden;
      TopInSight(s, n, 8);
      if dind == 0 {
        MappedNone(s, s1, n, Mid(k));
        MappedNone(s, s1, n, Leaf(k, l));
        return 0;
      }
      var ok := Bread(dind);
      if !ok {
        MappedHidden(s, s1, n, Mid(k));
        MappedHidden(s, s1, n, Leaf(k, l));
        return 0;
      }
      var mid := Descend(n, Mid(k), dind, create);
      MappedBelow(s, s1, St(), n, Mid(k), mid);
      z := BmapLast(s, n, k, l, mid, create);
    }

    method BmapLast(ghost s: Fs, n: nat, k: nat, l: nat, mid: nat, create: bool) returns (z: nat)
      requires Valid() && IsFile(n) && k < 512 && l < 512 && TreeInv(s) && s.dead == {}
      requires Grown(s, St()) && (!create ==> St() == s)
      requires Mapped(s, St(), Place(n, Mid(k)), mid) && !Hidden(s, Place(n, Mid(k))) && (mid == 0 && create ==> Full())
      requires |owner| <= |s.owner| + (if mid == 0 then 1 else 2)
      modifies zone, blocks, bits, `owner, `leaked, `bad
      ensures Valid() && Grown(s, St())
      ensures !create ==> St() == s
      ensures Found(s, St(), Place(n, Leaf(k, l)), z, create)
    {
      ghost var s1 := St();
      assert Shape(s) && Shape(s1) && IsFile(n) == (n < |s1.tree| && s1.tree[n]);
      hide TreeInv, Grown, Mapped, At, Hidden, Shape, IsPlace, AllUsed, Parts;
      LeafPlaces(s, s1, n, k, l);
      MappedAt(s, s1, Place(n, Mid(k)), mid);
      if mid == 0 {
        MappedNone(s, s1, n, Leaf(k, l));
        return 0;
      }
      var ok := Bread(mid);
      if !ok {
        MappedHidden(s, s1, n, Leaf(k, l));
        return 0;
      }
      z := Descend(n, Leaf(k, l), mid, create);
      MappedBelow(s, s1, St(), n, Leaf(k, l), z);
    }

    /** Reads a zone number from the inode or from index block `block`, and fills it in if it is 0 and asked for. */
    method Descend(n: nat, pos: Pos, block: nat, create: bool) returns (z: nat)
      requires Valid() && IsPlace(St(), Place(n, pos))
      requires !pos.Zone? ==> block == At(St(), Place(n, Parent(pos))) && block != 0
      modifies zone, blocks, bits, `owner, `leaked, `bad
      ensures Valid() && Grown(old(St()), St()) && IsPlace(St(), Place(n, pos))
      ensures !create ==> St() == old(St())
      ensures z == At(St(), Place(n, pos))
      ensures z == 0 && create ==> Full()
      ensures |owner| <= |old(owner)| + (if z == 0 then 0 else 1)
    {
      ghost var s := St();
      SameFiles(s, s);
      ParentOwned(s, Place(n, pos));
      match pos {
        case Zone(i) => z := zone[n][i];
        case Ind(k) => z := Word16(blocks[block], k);
        case Mid(k) => z := Word16(blocks[block], k);
        case Leaf(_, l) => z := Word16(blocks[block], l);
      }
      assert z == At(s, Place(n, pos));
      hide TreeInv, At;
      if create && z == 0 {
        z := Grow(n, pos, block);
      }
    }

    /** `free_ind`: the zones named by an index block, then the index block. When the block cannot be read, the
        zones it names are lost; `Torn` says that these are all the zones that are lost. */
    method FreeInd(ghost s0: Fs, ghost n: nat, ghost top: Pos, block: nat)
      requires Parts() && TreeInv(s0) && Torn(s0, St(), n) && IsPlace(St(), Place(n, top))
      requires IsIndex(top) && top != Zone(8) && block == At(St(), Place(n, top)) && InSight(s0, n, top, block)
      requires Place(n, top) !in dead && forall l | 0 <= l < 512 :: Place(n, Child(top, l)) !in dead
      modifies bits, `owner, `leaked, `dead
      ensures Torn(s0, St(), n) && Shape(St()) && SameAt(old(St()), St()) && SameShape(old(St()), St())
      ensures Cleared(St(), Place(n, top)) && forall l | 0 <= l < 512 :: Cleared(St(), Place(n, Child(top, l)))
      ensures forall pl | pl in dead ::
                pl in old(dead) || pl == Place(n, top) || (pl.n == n && Below(top, pl.pos))
      ensures old(dead) <= dead
    {
      SameAtAll(St(), St());
      if block != 0 {
        FreeIndBlock(s0, n, top, block);
      }
    }

    method FreeIndBlock(ghost s0: Fs, ghost n: nat, ghost top: Pos, block: nat)
      requires Parts() && TreeInv(s0) && Torn(s0, St(), n) && IsPlace(St(), Place(n, top))
      requires IsIndex(top) && top != Zone(8) && block == At(St(), Place(n, top)) && block != 0
      requires InSight(s0, n, top, block)
      requires Place(n, top) !in dead && forall l | 0 <= l < 512 :: Place(n, Child(top, l)) !in dead
      modifies bits, `owner, `leaked, `dead
      ensures Torn(s0, St(), n) && Shape(St()) && SameAt(old(St()), St()) && SameShape(old(St()), St())
      ensures Cleared(St(), Place(n, top)) && forall l | 0 <= l < 512 :: Cleared(St(), Place(n, Child(top, l)))
      ensures forall pl | pl in dead ::
                pl in old(dead) || pl == Place(n, top) || (pl.n == n && Below(top, pl.pos))
      ensures old(dead) <= dead
    {
      hide *;
      ghost var s := St();
      ghost var pl := Place(n, top);
      IndexInRange(s0, s, n, top);
      BelowChildren(top);
      FreeOrLose(s0, n, top, block);
      ghost var s1 := St();
      InSightIs(s0, n, top, block);
      FreePlace(s0, pl, block);
      ClearedAfter(s, s1, St(), n, top);
    }

    method FreeOrLose(ghost s0: Fs, ghost n: nat, ghost top: Pos, block: nat)
      requires Parts() && TreeInv(s0) && Torn(s0, St(), n) && IsPlace(St(), Place(n, top))
      requires IsIndex(top) && top != Zone(8) && block == At(St(), Place(n, top)) && 0 < block < nzones
      requires InSight(s0, n, top, block)
      requires Place(n, top) !in dead && forall l | 0 <= l < 512 :: Place(n, Child(top, l)) !in dead
      modifies bits, `owner, `leaked, `dead
      ensures Torn(s0, St(), n) && Shape(St()) && SameAt(old(St()), St()) && SameShape(old(St()), St())
      ensures IsPlace(St(), Place(n, top)) && block == At(St(), Place(n, top))
      ensures Place(n, top) !in dead && forall l | 0 <= l < 512 :: Cleared(St(), Place(n, Child(top, l)))
      ensures forall pl | pl in dead :: pl in old(dead) || (pl.n == n && Below(top, pl.pos))
      ensures old(dead) <= dead
    {
      var ok := Bread(block);
      if ok {
        FreeEntries(s0, n, top, block);
      } else {
        BelowChildren(top);
        LoseEntries(s0, n, top);
        hide Torn, TreeInv, Cleared, Below;
      }
    }

    /** Frees the zone at a place of inode `pl.n`. */
    method FreePlace(ghost s0: Fs, ghost pl: Place, z: nat)
      requires Parts() && TreeInv(s0) && Torn(s0, St(), pl.n) && IsPlace(St(), pl) && pl !in dead
      requires IsPlace(s0, pl) && !Hidden(s0, pl)
      requires z == At(St(), pl) && z != 0
      modifies bits, `owner, `dead
      ensures Torn(s0, St(), pl.n) && Shape(St()) && SameAt(old(St()), St()) && dead == old(dead) + {pl}
      ensures St() == FreeAt(old(St()), pl) && SameShape(old(St()), St())
      ensures St().dead == dead && old(St()).dead == old(dead)
    {
      ghost var s := St();
      TornShape(s0, s, pl.n);
      hide Torn, TreeInv, Hidden, At;
      TornFree(s0, s, pl.n, pl);
      var panicked := FreeBlock(z);
      assert !panicked;
      owner := owner - {z};
      dead := dead + {pl};
      assert St() == FreeAt(s, pl);
    }

    method FreeEntries(ghost s0: Fs, ghost n: nat, ghost top: Pos, block: nat)
      requires Parts() && TreeInv(s0) && Torn(s0, St(), n) && IsPlace(St(), Place(n, top))
      requires IsIndex(top) && top != Zone(8) && block == At(St(), Place(n, top)) && 0 < block < nzones
      requires InSight(s0, n, top, block) && block !in bad
      requires Place(n, top) !in dead && forall l | 0 <= l < 512 :: Place(n, Child(top, l)) !in dead
      modifies bits, `owner, `dead
      ensures Torn(s0, St(), n) && Shape(St()) && SameAt(old(St()), St()) && SameShape(old(St()), St())
      ensures IsPlace(St(), Place(n, top)) && block == At(St(), Place(n, top))
      ensures Place(n, top) !in dead && forall l | 0 <= l < 512 :: Cleared(St(), Place(n, Child(top, l)))
      ensures forall pl | pl in dead :: pl in old(dead) || (pl.n == n && Below(top, pl.pos))
      ensures old(dead) <= dead
    {
      hide *;
      ghost var s := St();
      ShapeOf(s0, s, n);
      SameAtAll(s, s);
      var i := 0;
      BelowChildren(top);
      while i < 512
        invariant 0 <= i <= 512
        invariant Shape(St()) && Torn(s0, St(), n) && SameAt(s, St()) && IsPlace(St(), Place(n, top))
        invariant block == At(St(), Place(n, top)) && SameShape(s, St())
        invariant forall l | 0 <= l < i :: Cleared(St(), Place(n, Child(top, l)))
        invariant forall l | i <= l < 512 :: Place(n, Child(top, l)) !in dead
        invariant forall pl | pl in dead :: pl in old(dead) || (pl.n == n && Below(top, pl.pos))
        invariant old(dead) <= dead
      {
        ghost var s1 := St();
        FreeEntry(s0, n, top, block, i);
        ClearedStays(s1, St(), n, top, i);
        SameAtTrans(s, s1, St());
        i := i + 1;
      }
    }

    method FreeEntry(ghost s0: Fs, ghost n: nat, ghost top: Pos, block: nat, i: nat)
      requires Parts() && TreeInv(s0) && Torn(s0, St(), n) && IsPlace(St(), Place(n, top))
      requires IsIndex(top) && top != Zone(8) && block == At(St(), Place(n, top)) && 0 < block < nzones
      requires i < 512 && Place(n, Child(top, i)) !in dead && InSight(s0, n, top, block) && block !in bad
      modifies bits, `owner, `dead
      ensures Torn(s0, St(), n) && Shape(St()) && SameAt(old(St()), St())
      ensures SameShape(old(St()), St()) && St().dead == dead && old(St()).dead == old(dead)
      ensures IsPlace(St(), Place(n, top)) && block == At(St(), Place(n, top))
      ensures Cleared(St(), Place(n, Child(top, i)))
      ensures old(dead) <= dead <= old(dead) + {Place(n, Child(top, i))} && Below(top, Child(top, i))
      ensures forall l: nat | l != i :: Child(top, l) != Child(top, i)
    {
      ghost var s := St();
      SameAtAll(s, s);
      var p := Word16(blocks[block], i);
      ghost var pl := Place(n, Child(top, i));
      assert At(s, Place(n, top)) == block && At(s, pl) == p;
      if p != 0 {
        ChildInSight(s0, n, top, block, i);
        hide Torn, TreeInv;
        FreePlace(s0, pl, p);
      }
    }

    ghost method LoseEntries(s0: Fs, n: nat, top: Pos)
      requires Parts() && TreeInv(s0) && Torn(s0, St(), n) && IsPlace(St(), Place(n, top)) && IsIndex(top)
      requires Place(n, top) !in dead
      requires IsPlace(s0, Place(n, top)) && At(s0, Place(n, top)) != 0 && At(s0, Place(n, top)) in bad
      modifies `owner, `leaked, `dead
      ensures EntriesGone(s0, old(St()), St(), n, top)
    {
      ghost var s := St();
      TornShape(s0, s, n);
      hide Torn, TreeInv, At, ZonesBelow, Shape, IsPlace, Leak, EntriesGone;
      EntriesLost(s0, s, n, top);
      ghost var s' := Leak(s, ZonesBelow(s, n, top));
      owner, leaked, dead := s'.owner, s'.leaked, s'.dead;
      assert St() == s';
    }

    /** `free_dind`: every subtree under the double-indirect block, then the block itself. */
    method FreeDind(ghost s0: Fs, ghost n: nat, block: nat)
      requires Parts() && TreeInv(s0) && Torn(s0, St(), n) && IsPlace(St(), Place(n, Zone(8)))
      requires block == At(St(), Place(n, Zone(8))) && InSight(s0, n, Zone(8), block)
      requires Place(n, Zone(8)) !in dead && forall pl | pl in dead :: !Early(pl.pos, 512)
      modifies bits, `owner, `leaked, `dead
      ensures Torn(s0, St(), n) && Shape(St()) && SameAt(old(St()), St()) && SameShape(old(St()), St())
      ensures Cleared(St(), Place(n, Zone(8))) && forall k | 0 <= k < 512 :: MidCleared(St(), n, k)
      ensures old(dead) <= dead
    {
      SameAtAll(St(), St());
      if block != 0 {
        FreeDindBlock(s0, n, block);
      }
    }

    method FreeDindBlock(ghost s0: Fs, ghost n: nat, block: nat)
      requires Parts() && TreeInv(s0) && Torn(s0, St(), n) && IsPlace(St(), Place(n, Zone(8)))
      requires block == At(St(), Place(n, Zone(8))) && block != 0 && InSight(s0, n, Zone(8), block)
      requires Place(n, Zone(8)) !in dead && forall pl | pl in dead :: !Early(pl.pos, 512)
      modifies bits, `owner, `leaked, `dead
      ensures Torn(s0, St(), n) && Shape(St()) && SameAt(old(St()), St()) && SameShape(old(St()), St())
      ensures Cleared(St(), Place(n, Zone(8))) && forall k | 0 <= k < 512 :: MidCleared(St(), n, k)
      ensures old(dead) <= dead
    {
      assert IsIndex(Zone(8));
      hide *;
      ghost var s := St();
      IndexInRange(s0, s, n, Zone(8));
      var ok := Bread(block);
      if ok {
        FreeMids(s0, n, block);
      } else {
        LoseEntries(s0, n, Zone(8));
        AllMids(St(), n);
        BelowChildren(Zone(8));
      }
      ghost var s1 := St();
      InSightIs(s0, n, Zone(8), block);
      FreePlace(s0, Place(n, Zone(8)), block);
      MidsAfter(s, s1, St(), n);
    }

    method FreeMids(ghost s0: Fs, ghost n: nat, block: nat)
      requires Parts() && TreeInv(s0) && Torn(s0, St(), n) && IsPlace(St(), Place(n, Zone(8)))
      requires block == At(St(), Place(n, Zone(8))) && 0 < block < nzones
      requires InSight(s0, n, Zone(8), block) && block !in bad
      requires Place(n, Zone(8)) !in dead && forall pl | pl in dead :: !Early(pl.pos, 512)
      modifies bits, `owner, `leaked, `dead
      ensures Torn(s0, St(), n) && Shape(St()) && SameAt(old(St()), St()) && SameShape(old(St()), St())
      ensures IsPlace(St(), Place(n, Zone(8))) && block == At(St(), Place(n, Zone(8)))
      ensures Place(n, Zone(8)) !in dead && forall k | 0 <= k < 512 :: MidCleared(St(), n, k)
      ensures old(dead) <= dead
    {
      hide *;
      ghost var s := St();
      ShapeOf(s0, s, n);
      SameAtAll(s, s);
      EarlyMonotone();
      var l := 0;
      while l < 512
        invariant 0 <= l <= 512
        invariant Shape(St()) && Torn(s0, St(), n) && SameAt(s, St()) && SameShape(s, St())
        invariant IsPlace(St(), Place(n, Zone(8))) && block == At(St(), Place(n, Zone(8)))
        invariant forall k | 0 <= k < l :: MidCleared(St(), n, k)
        invariant forall pl | pl in dead :: pl in old(dead) || (pl.n == n && Early(pl.pos, l))
        invariant old(dead) <= dead
      {
        ghost var s1 := St();
        MidsUntouched(s1, n, l, old(dead));
        FreeMid(s0, n, block, l);
        MidsStay(s, s1, St(), n, l);
        l := l + 1;
      }
    }

    method FreeMid(ghost s0: Fs, ghost n: nat, block: nat, l: nat)
      requires Parts() && TreeInv(s0) && Torn(s0, St(), n) && IsPlace(St(), Place(n, Zone(8)))
      requires block == At(St(), Place(n, Zone(8))) && 0 < block < nzones && l < 512
      requires InSight(s0, n, Zone(8), block) && block !in bad
      requires Place(n, Mid(l)) !in dead && forall j | 0 <= j < 512 :: Place(n, Leaf(l, j)) !in dead
      modifies bits, `owner, `leaked, `dead
      ensures Torn(s0, St(), n) && Shape(St()) && SameAt(old(St()), St()) && SameShape(old(St()), St())
      ensures IsPlace(St(), Place(n, Zone(8))) && block == At(St(), Place(n, Zone(8)))
      ensures MidCleared(St(), n, l) && old(dead) <= dead
      ensures forall pl | pl in dead :: pl in old(dead) || (pl.n == n && Early(pl.pos, l + 1))
    {
      ghost var s := St();
      var mid := Word16(blocks[block], l);
      assert mid == At(s, Place(n, Mid(l)));
      assert forall j | 0 <= j < 512 :: Child(Mid(l), j) == Leaf(l, j);
      ChildInSight(s0, n, Zone(8), block, l);
      TornAt(s0, s, n, Mid(l));
      hide Torn, TreeInv;
      FreeInd(s0, n, Mid(l), mid);
    }

    /** `truncate`: gives back all zones of a regular file or directory. */
    method Truncate(n: nat)
      requires Valid() && n < tree.Length
      modifies zone, size, bits, `owner, `leaked, `dead
      ensures Valid()
      ensures !tree[n] ==> St() == old(St()) && size[..] == old(size[..])
      ensures tree[n] ==> Truncated(old(St()), St(), n) && size[..] == old(size[..])[n := 0]
    {
      if !tree[n] {
        return;
      }
      ghost var s0 := St();
      TornStart(s0, n);
      var i := 0;
      while i < 7
        invariant 0 <= i <= 7 && size[..] == old(size[..])
        invariant Torn(s0, St(), n)
        invariant |zone[n]| == 9 && forall k | 0 <= k < i :: zone[n][k] == 0
        invariant forall pl | pl in dead :: pl.pos.Zone? && pl.pos.i < i
      {
        FreeDirect(s0, n, i);
        i := i + 1;
      }
      FreeIndirects(s0, n);
      ghost var s := St();
      TornForget(s0, s, n);
      zone[n] := zone[n][7 := 0][8 := 0];
      assert zone[n] == seq(9, _ => 0);
      dead := {};
      assert St() == Forget(s, n);
      size[n] := 0;
    }

    method FreeDirect(ghost s0: Fs, n: nat, i: nat)
      requires Parts() && TreeInv(s0) && Torn(s0, St(), n) && IsFile(n) && i < 7 && Place(n, Zone(i)) !in dead
      modifies zone, bits, `owner, `dead
      ensures Torn(s0, St(), n)
      ensures |old(zone[n])| == 9 && zone[n] == old(zone[n])[i := 0]
      ensures forall pl | pl in dead :: pl in old(dead) || pl == Place(n, Zone(i))
    {
      ghost var pl := Place(n, Zone(i));
      assert IsPlace(St(), pl) && At(St(), pl) == zone[n][i];
      if zone[n][i] != 0 {
        FreePlace(s0, pl, zone[n][i]);
        ghost var s := St();
        TornClear(s0, s, n, i);
        hide Torn, TreeInv;
        zone[n] := zone[n][i := 0];
        assert St() == ClearDirect(s, n, i);
      }
    }

    /** The indirect halves of truncation. */
    method FreeIndirects(ghost s0: Fs, n: nat)
      requires Parts() && TreeInv(s0) && Torn(s0, St(), n) && IsFile(n)
      requires |zone[n]| == 9 && forall k | 0 <= k < 7 :: zone[n][k] == 0
      requires forall pl | pl in dead :: pl.pos.Zone? && pl.pos.i < 7
      modifies bits, `owner, `leaked, `dead
      ensures Torn(s0, St(), n) && forall p | ValidPos(p) :: Cleared(St(), Place(n, p))
    {
      ghost var s := St();
      IndirectsReady(s, n);
      hide *;
      IndirectsInSight(s0, s, n);
      FreeInd(s0, n, Zone(7), zone[n][7]);
      ghost var s1 := St();
      IndirectsNext(s, s1, n);
      FreeDind(s0, n, zone[n][8]);
      AllCleared(s, s1, St(), n);
    }

    /** `file_read`: `count` bytes from position `pos`. It stops before the first block that it cannot read; a block whose
        index block cannot be read is taken for a hole, and reads as zeros. */
    method FileRead(n: nat, pos: nat, count: int) returns (out: seq<Byte>, r: int, newPos: nat)
      requires Valid() && IsFile(n) && (count > 0 ==> pos + count <= LIMIT)
      modifies zone, blocks, bits, `owner, `leaked, `bad
      ensures Valid() && IsFile(n) && St() == old(St()) && newPos == pos + |out|
      ensures count <= 0 ==> out == [] && r == 0
      ensures count > 0 ==> |out| <= count && r == if |out| > 0 then |out| else -ERROR
      ensures count > 0 ==> ReadFrom(St(), n, pos, out)
      ensures |out| < count ==> Broken(St(), PlaceOf(n, pos + |out|))
      ensures count > 0 && Readable(St(), n) ==> out == FileOf(St(), n)[pos..pos + count]
    {
      hide *;
      ghost var s := St();
      HasSize(n);
      out, newPos := [], pos;
      if count <= 0 {
        return out, 0, pos;
      }
      var left := count;
      ReadNothing(s, n, pos);
      while left > 0
        invariant 0 <= left <= count && left + |out| == count && newPos == pos + |out|
        invariant Valid() && St() == s && IsFile(n) && ReadFrom(s, n, pos, out)
      {
        PositionInFile(newPos);
        var nr := BmapOrCreate(n, newPos / BLOCK_SIZE, false);
        if nr != 0 {
          var ok := Bread(nr);
          if !ok {
            StopsHere(s, n, newPos, nr);
            break;
          }
        }
        var start := newPos % BLOCK_SIZE;
        var chars := if BLOCK_SIZE - start < left then BLOCK_SIZE - start else left;
        var piece := CopyOut(n, newPos, nr, start, chars);
        ReadMore(s, n, pos, out, piece);
        out := out + piece;
        newPos := newPos + chars;
        left := left - chars;
      }
      r := if count - left > 0 then count - left else -ERROR;
      ReadWhole(s, n, pos, out, count);
    }

    /** The byte loops of `file_read`: from a block, or zeros. */
    method CopyOut(n: nat, pos: nat, nr: nat, start: nat, chars: nat) returns (out: seq<Byte>)
      requires Valid() && IsFile(n) && pos < LIMIT && start == pos % BLOCK_SIZE && start + chars <= BLOCK_SIZE
      requires Found(St(), St(), Place(n, PosOf(pos / BLOCK_SIZE)), nr, false) && (nr != 0 ==> nr !in bad)
      ensures |out| == chars && ReadFrom(St(), n, pos, out)
    {
      ghost var s := St();
      assert PlaceOk(s, Place(n, PosOf(pos / BLOCK_SIZE)));
      assert nr != 0 ==> OwnerOk(s, nr);
      hide TreeInv, At, Hidden;
      out := [];
      var i := 0;
      while i < chars
        invariant 0 <= i <= chars && |out| == i
        invariant forall k | 0 <= k < i :: out[k] == if nr == 0 then 0 else blocks[nr][start + k]
      {
        out := out + [if nr == 0 then 0 else blocks[nr][start + i]];
        i := i + 1;
      }
      ReadBlock(s, n, pos, nr, out);
    }

    /** `file_write`: `count` bytes at the file position, or at the end of an O_APPEND file. It stops early exactly where
        a block on the way cannot be read, or when no zone is free; `written` bytes have then been stored. */
    method FileWrite(n: nat, fpos: nat, append: bool, buf: seq<Byte>, count: int)
      returns (r: int, newPos: nat, ghost written: nat)
      requires Valid() && IsFile(n) && |buf| >= count
      requires count > 0 ==> (if append then size[n] else fpos) + count <= LIMIT
      modifies zone, size, blocks, bits, `owner, `leaked, `bad
      ensures Valid() && IsFile(n) && written <= |buf| && r == if written > 0 then written else -1
      ensures count <= 0 ==> written == 0 && St() == old(St())
      ensures Kept(old(St()), St())
      ensures var start := if append then old(size[n]) else fpos;
              && newPos == (if append then fpos else start + written)
              && WroteTo(old(St()), St(), n, start, buf, written)
              && size[..] == old(size[..])[n := if written > 0 && start + written > old(size[n]) then start + written
                                                else old(size[n])]
              && Ends(old(St()), St(), n, start, written, count)
    {
      hide *;
      ghost var s := St();
      HasSize(n);
      var start := if append then size[n] else fpos;
      var pos, i := start, 0;
      WroteNothing(s, n, start, buf, count);
      ghost var done := true;
      while i < count
        invariant 0 <= i && (if count > 0 then i <= count else i == 0 && St() == s) && pos == start + i
        invariant Valid() && IsFile(n) && i <= |buf| && WroteTo(s, St(), n, start, buf, i) && Kept(s, St())
        invariant size[..] == old(size[..])[n := if i > 0 && pos > old(size[n]) then pos else old(size[n])]
        invariant Going(s, St(), n, start, i, count)
      {
        ghost var s1 := St();
        HasSize(n);
        var c := WriteOne(n, pos, buf, i, count);
        HasSize(n);
        if c == 0 {
          WroteGrown(s, s1, St(), n, start, buf, i, count);
          done := false;
          break;
        }
        WroteMore(s, s1, St(), n, start, buf, i, c, count);
        pos := pos + c;
        i := i + c;
      }
      HasSize(n);
      if done { WroteAll(s, St(), n, start, i, count); }
      written := i;
      newPos := if append then fpos else pos;
      r := if i > 0 then i else -1;
    }

    /** One turn of the loop of `file_write`: up to the end of one block. 0 when the loop stops. */
    method WriteOne(n: nat, pos: nat, buf: seq<Byte>, i: nat, count: nat) returns (c: nat)
      requires Valid() && IsFile(n) && i < count <= |buf| && pos + (count - i) <= LIMIT
      modifies zone, size, blocks, bits, `owner, `leaked, `bad
      ensures Valid() && IsFile(n) && Kept(old(St()), St())
      ensures c == 0 ==> Stuck(old(St()), St(), n, pos) && Grown(old(St()), St()) && size[..] == old(size[..])
      ensures c > 0 ==> c == Chunk(pos, count - i) <= count - i
      ensures c > 0 ==> Stored(old(St()), St(), n, pos, buf[i..i + c]) && Fetched(old(St()), St(), n, pos)
      ensures c > 0 ==> size[..] == old(size[..])[n := if pos + c > old(size[n]) then pos + c else old(size[n])]
    {
      ghost var s := St();
      hide *;
      PositionInFile(pos);
      HasSize(n);
      var block := FetchBlock(n, pos);
      if block == 0 { return 0; }
      c := BLOCK_SIZE - pos % BLOCK_SIZE;
      if c > count - i { c := count - i; }
      if pos + c > size[n] {
        size[n] := pos + c;
      }
      ghost var mid := St();
      CopyIn(n, pos, block, c, buf, i);
      ChunkIs(pos, count - i, c);
      StoredAfterGrown(s, mid, St(), n, pos, buf[i..i + c]);
      FetchedAfter(s, mid, St(), n, pos);
    }

    lemma HasSize(n: nat)
      requires Valid() && IsFile(n)
      ensures n < size.Length == |St().tree| && Shape(St()) && St().tree[n] && TreeInv(St()) && St().dead == {}
    {
    }

    /** `create_block` and `bread`: the block of byte `p`, ready to be written to; 0 when that is impossible. */
    method FetchBlock(n: nat, p: nat) returns (z: nat)
      requires Valid() && IsFile(n) && p < LIMIT
      modifies zone, blocks, bits, `owner, `leaked, `bad
      ensures Valid() && IsFile(n) && Grown(old(St()), St()) && Kept(old(St()), St())
      ensures if z == 0 then Stuck(old(St()), St(), n, p)
              else z == At(St(), Place(n, PosOf(p / BLOCK_SIZE))) && Fetched(old(St()), St(), n, p)
    {
      ghost var s := St();
      PositionInFile(p);
      hide TreeInv, Grown, At, Hidden, PosOf, Found, Full;
      z := BmapOrCreate(n, p / BLOCK_SIZE, true);
      if z == 0 {
        GrownKeeps(s, St());
        StuckIs(s, St(), n, p);
        return;
      }
      var ok := Bread(z);
      GrownKeeps(s, St());
      FetchedIs(s, St(), n, p, z);
      if !ok { z := 0; }
    }

    /** The byte loop of `file_write`. */
    method CopyIn(n: nat, pos: nat, z: nat, chars: nat, buf: seq<Byte>, from: nat)
      requires Valid() && IsFile(n) && pos < LIMIT && pos % BLOCK_SIZE + chars <= BLOCK_SIZE && from + chars <= |buf|
      requires z == At(St(), Place(n, PosOf(pos / BLOCK_SIZE))) && z != 0
      modifies blocks
      ensures Valid() && Stored(old(St()), St(), n, pos, buf[from..from + chars])
      ensures Shape(old(St())) && SameAt(old(St()), St()) && Kept(old(St()), St())
    {
      ghost var s := St();
      assert PlaceOk(s, Place(n, PosOf(pos / BLOCK_SIZE))) && OwnerOk(s, z);
      var start := pos % BLOCK_SIZE;
      var k := 0;
      while k < chars
        invariant 0 <= k <= chars && blocks[..] == s.blocks[z := blocks[z]]
        invariant forall o | 0 <= o < BLOCK_SIZE ::
                    blocks[z][o] == if start <= o < start + k then buf[from + (o - start)] else s.blocks[z][o]
      {
        blocks[z] := blocks[z][start + k := buf[from + k]];
        k := k + 1;
      }
      WrittenBytes(s, n, pos / BLOCK_SIZE, blocks[z]);
      assert St() == s.(blocks := s.blocks[z := blocks[z]]);
      StoredInBlock(s, St(), n, pos, blocks[z], buf[from..from + chars]);
      KeptSame(s, St());
    }

    /** The file system as its users see it. */
    ghost function Files(): seq<Flat>
      requires Valid()
      reads this, zone, tree, size, blocks, bits
    {
      FlatFiles(St(), size[..])
    }

    ghost function Now(): Snap
      reads this, zone, tree, size, blocks, bits
    {
      Snap(St(), size[..])
    }

    /** Any run of writes and truncations on any files does to the trees what it does to plain byte sequences, where `ks` says
        how much of each write was done. `trace` are the states between the operations. If all zones in use can be read and
        enough zones are free, every write is complete. */
    method Run(ops: seq<FileOp>) returns (ghost ks: seq<nat>, ghost trace: seq<Snap>)
      requires Valid()
      modifies zone, size, blocks, bits, `owner, `leaked, `dead, `bad
      ensures Valid() && |ks| == |ops| && Files() == FlatRun(old(Files()), ops, ks)
      ensures TreeRun(trace, ops, ks) && trace[0] == old(Now()) && trace[|ops|] == Now()
      ensures old(EnoughFor(St(), ops)) ==> Files() == FlatRun(old(Files()), ops, Sizes(ops))
    {
      hide TreeStep, FlatStep, FlatFiles, EnoughFor, TreeInv;
      if ops == [] {
        ks, trace := [], [Now()];
        return;
      }
      ghost var a, files := Now(), Files();
      ghost var k := Do(ops[0]);
      ghost var b := Now();
      StepFiles(a, b, ops[0], k);
      ghost var ls, rest := Run(ops[1..]);
      ks, trace := [k] + ls, [a] + rest;
      RunFrom(a, rest, ops, k, ls);
      FlatRunFrom(files, ops, k, ls);
      if EnoughFor(a.s, ops) { Complete(trace, ops, ks); }
    }

    method Do(op: FileOp) returns (ghost k: nat)
      requires Valid()
      modifies zone, size, blocks, bits, `owner, `leaked, `dead, `bad
      ensures Valid() && TreeStep(old(Now()), Now(), op, k)
    {
      hide *;
      match op {
        case WriteOp(n, fpos, append, buf) => k := DoWrite(op, n, fpos, append, buf);
        case TruncateOp(n) => DoTruncate(op, n); k := 0;
      }
    }

    method DoWrite(ghost op: FileOp, n: nat, fpos: nat, append: bool, buf: seq<Byte>) returns (ghost k: nat)
      requires Valid() && op == WriteOp(n, fpos, append, buf)
      modifies zone, size, blocks, bits, `owner, `leaked, `dead, `bad
      ensures Valid() && TreeStep(old(Now()), Now(), op, k)
    {
      ghost var a := Now();
      hide TreeInv, WroteTo, FlatFiles, FlatStep, Kept, Ends, TreeStep;
      if n < tree.Length && tree[n] && (if append then size[n] else fpos) + |buf| <= LIMIT {
        var r, newPos;
        r, newPos, k := FileWrite(n, fpos, append, buf, |buf|);
        WriteStep(a, Now(), n, fpos, append, buf, k);
      } else {
        k := 0;
        NoStep(a, op);
      }
    }

    method DoTruncate(ghost op: FileOp, n: nat)
      requires Valid() && op == TruncateOp(n)
      modifies zone, size, blocks, bits, `owner, `leaked, `dead, `bad
      ensures Valid() && TreeStep(old(Now()), Now(), op, 0)
    {
      ghost var a := Now();
      hide TreeInv, Truncated, FlatFiles, FlatStep, TreeStep;
      if n < tree.Length && tree[n] {
        Truncate(n);
        TruncateStep(a, Now(), n);
      } else {
        NoStep(a, op);
      }
    }
  }

  /** What `_bmap` finds, having grown the trees from `s` to `s'`. */
  ghost predicate Mapped(s: Fs, s': Fs, pl: Place, z: nat) {
    && Shape(s) && Shape(s') && IsPlace(s, pl) && IsPlace(s', pl)
    && z == if Hidden(s, pl) then 0 else At(s', pl)
  }

  lemma FullGrown(s: Fs, s': Fs)
    requires TreeInv(s) && TreeInv(s') && s.dead == {} && SameAt(s, s') && s' == s.(bits := s'.bits)
    requires |s'.bits| == |s.bits|
    ensures Grown(s, s')
    ensures forall q | IsPlace(s, q) :: IsPlace(s', q) && At(s', q) == At(s, q)
  {
    SameFiles(s, s');
  }

  lemma FreshZone(s: Fs, pl: Place, z: nat)
    requires TreeInv(s) && s.dead == {} && DataZone(s, z) && !BitOf(s, z) && IsPlace(s, pl)
    ensures z !in s.leaked && z !in s.owner
    ensures !pl.pos.Zone? ==> var up := Place(pl.n, Parent(pl.pos));
              IsPlace(s, up) && IsPlace(Alloc(s, z), up) && At(Alloc(s, z), up) == At(s, up)
  {
    AllocInv(s, z);
    assert !BitOf(s, z);
    if !pl.pos.Zone? { assert IsPlace(s, Place(pl.n, Parent(pl.pos))); }
  }

  /** ... and when a zone was asked for, nothing was found only because an index block cannot be read or no zone is free. */
  ghost predicate Found(s: Fs, s': Fs, pl: Place, z: nat, create: bool) {
    && Mapped(s, s', pl, z)
    && (z == 0 && create ==> Hidden(s, pl) || AllUsed(s'))
    && |s'.owner| <= |s.owner| + (if z == 0 then 2 else 3)
  }

  lemma MappedAt(s: Fs, s': Fs, pl: Place, z: nat)
    requires Mapped(s, s', pl, z) && !Hidden(s, pl)
    ensures z == At(s', pl)
  {
  }

  lemma LeafPlaces(s: Fs, s1: Fs, n: nat, k: nat, l: nat)
    requires TreeInv(s) && TreeInv(s1) && Grown(s, s1) && n < |s1.tree| && s1.tree[n] && k < 512 && l < 512
    ensures Shape(s) && Shape(s1) && IsPlace(s, Place(n, Leaf(k, l))) && IsPlace(s, Place(n, Mid(k)))
    ensures IsPlace(s1, Place(n, Leaf(k, l))) && IsPlace(s1, Place(n, Mid(k)))
  {
  }

  lemma PosCases(block: nat)
    requires block < MAX_BLOCKS
    ensures block < 7 ==> PosOf(block) == Zone(block)
    ensures 7 <= block && block - 7 < 512 ==> PosOf(block) == Ind(block - 7)
    ensures 519 <= block ==> PosOf(block) == Leaf((block - 519) / 512, (block - 519) % 512) && (block - 519) / 512 < 512
  {
  }

  lemma FoundTop(s: Fs, s': Fs, n: nat, i: nat, z: nat, create: bool)
    requires Shape(s) && Grown(s, s') && IsPlace(s, Place(n, Zone(i))) && IsPlace(s', Place(n, Zone(i)))
    requires z == At(s', Place(n, Zone(i))) && (z == 0 && create ==> AllUsed(s')) && |s'.owner| <= |s.owner| + 1
    ensures Found(s, s', Place(n, Zone(i)), z, create)
  {
  }

  lemma TopInSight(s: Fs, n: nat, i: nat)
    requires TreeInv(s) && n < |s.tree| && s.tree[n] && i < 9
    ensures Shape(s) && IsPlace(s, Place(n, Zone(i))) && !Hidden(s, Place(n, Zone(i)))
  {
  }

  /** There is no index block. */
  lemma MappedNone(s: Fs, s1: Fs, n: nat, p: Pos)
    requires Shape(s) && Grown(s, s1) && IsPlace(s, Place(n, p)) && !p.Zone?
    requires !Hidden(s, Place(n, Parent(p))) && At(s1, Place(n, Parent(p))) == 0
    ensures Mapped(s, s1, Place(n, p), 0) && !Hidden(s, Place(n, p)) && At(s1, Place(n, p)) == 0
  {
    var up := Place(n, Parent(p));
    assert IsPlace(s, up) && IsPlace(s1, up);
    assert At(s, up) == 0;
  }

  /** The index block, or one above it, cannot be read. */
  lemma MappedHidden(s: Fs, s1: Fs, n: nat, p: Pos)
    requires TreeInv(s) && TreeInv(s1) && s.dead == {} && Grown(s, s1) && IsPlace(s, Place(n, p)) && !p.Zone?
    requires var up := Place(n, Parent(p));
             IsPlace(s1, up) && (Hidden(s, up) || (At(s1, up) != 0 && At(s1, up) in s1.bad))
    ensures Mapped(s, s1, Place(n, p), 0) && Hidden(s, Place(n, p))
  {
    BadKept(s, s1, Place(n, Parent(p)));
  }

  /** The index block can be read, and the number in it is found or filled in. */
  lemma MappedBelow(s: Fs, s1: Fs, s2: Fs, n: nat, p: Pos, z: nat)
    requires TreeInv(s) && TreeInv(s1) && s.dead == {} && Grown(s, s1) && Grown(s1, s2)
    requires IsPlace(s, Place(n, p)) && !p.Zone? && !Hidden(s, Place(n, Parent(p)))
    requires IsPlace(s1, Place(n, Parent(p))) && At(s1, Place(n, Parent(p))) !in s1.bad
    requires IsPlace(s2, Place(n, p)) && z == At(s2, Place(n, p))
    ensures Grown(s, s2) && Mapped(s, s2, Place(n, p), z) && !Hidden(s, Place(n, p))
  {
    GrownTrans(s, s1, s2);
    BadKept(s, s1, Place(n, Parent(p)));
  }

  /** The bytes of file `n` from `pos` on are overwritten with `data`; all other bytes of all files are the same. */
  ghost predicate Stored(s: Fs, s': Fs, n: nat, pos: nat, data: seq<Byte>) {
    && Shape(s) && Shape(s') && s'.tree == s.tree && n < |s.tree| && s.tree[n] && pos + |data| <= LIMIT
    && forall m, p | 0 <= m < |s.tree| && s.tree[m] && 0 <= p < LIMIT ::
         ByteAt(s', m, p) == if m == n && pos <= p < pos + |data| then data[p - pos] else ByteAt(s, m, p)
  }

  /** A write of the first `k` bytes of `buf` at `start`, which touches no other byte of any file. Writing
      nothing is possible at any position. */
  ghost predicate WroteTo(s: Fs, s': Fs, n: nat, start: nat, buf: seq<Byte>, k: nat) {
    && k <= |buf| && Shape(s) && Shape(s')
    && if k == 0 then FilesSame(s, s') else Stored(s, s', n, start, buf[..k])
  }

  lemma StoredInBlock(s: Fs, s': Fs, n: nat, pos: nat, block: Block, data: seq<Byte>)
    requires Shape(s) && Shape(s') && s'.tree == s.tree && n < |s.tree| && s.tree[n] && pos < LIMIT
    requires pos % BLOCK_SIZE + |data| <= BLOCK_SIZE
    requires 0 < At(s, Place(n, PosOf(pos / BLOCK_SIZE))) < s.nzones
    requires forall o | 0 <= o < BLOCK_SIZE ::
               block[o] == if pos % BLOCK_SIZE <= o < pos % BLOCK_SIZE + |data| then data[o - pos % BLOCK_SIZE]
                           else s.blocks[At(s, Place(n, PosOf(pos / BLOCK_SIZE)))][o]
    requires forall m, p | 0 <= m < |s.tree| && s.tree[m] && 0 <= p < LIMIT ::
               ByteAt(s', m, p) ==
                 if m == n && p / BLOCK_SIZE == pos / BLOCK_SIZE then block[p % BLOCK_SIZE] else ByteAt(s, m, p)
    ensures Stored(s, s', n, pos, data)
  {
    BlockBytes(s, n, pos, |data|);
    forall m, p | 0 <= m < |s.tree| && s.tree[m] && 0 <= p < LIMIT
      ensures ByteAt(s', m, p) == if m == n && pos <= p < pos + |data| then data[p - pos] else ByteAt(s, m, p)
    {
      if m == n && pos <= p < pos + |data| {
        assert p / BLOCK_SIZE == pos / BLOCK_SIZE && p % BLOCK_SIZE == pos % BLOCK_SIZE + (p - pos);
      } else if m == n && p / BLOCK_SIZE == pos / BLOCK_SIZE {
        assert p - pos == p % BLOCK_SIZE - pos % BLOCK_SIZE;
      }
    }
  }

  lemma GrownKeeps(s: Fs, s': Fs)
    requires Grown(s, s')
    ensures Kept(s, s')
  {
  }

  lemma KeptSame(s: Fs, s': Fs)
    requires Shape(s) && Shape(s') && SameAt(s, s') && s' == s.(blocks := s'.blocks)
    ensures Kept(s, s')
  {
    hide At;
  }

  lemma StoredAfterGrown(s: Fs, s1: Fs, s2: Fs, n: nat, pos: nat, data: seq<Byte>)
    requires Grown(s, s1) && Stored(s1, s2, n, pos, data) && Kept(s1, s2)
    ensures Stored(s, s2, n, pos, data) && Kept(s, s2)
  {
    KeptTrans(s, s1, s2);
    hide At;
  }

  // ---------- How far a write comes ----------

  /** The block of byte `p` could not be had: it cannot be read, or there is none and no zone is free. */
  ghost predicate Stuck(s: Fs, s': Fs, n: nat, p: nat) {
    && Shape(s) && Shape(s') && n < |s.tree| && s.tree[n] && p < LIMIT && |s'.owner| <= |s.owner| + 3
    && (Blocked(s, n, p) || (AllUsed(s') && At(s, PlaceOf(n, p)) == 0 && |s'.owner| <= |s.owner| + 2))
  }

  /** The block of byte `p` could be had, for at most three new zones. */
  ghost predicate Fetched(s: Fs, s': Fs, n: nat, p: nat) {
    && Shape(s) && n < |s.tree| && s.tree[n] && p < LIMIT
    && !Blocked(s, n, p) && |s'.owner| <= |s.owner| + 3
  }

  lemma StuckIs(s: Fs, s': Fs, n: nat, p: nat)
    requires Grown(s, s') && n < |s.tree| && s.tree[n] && p < LIMIT
    requires Found(s, s', Place(n, PosOf(p / BLOCK_SIZE)), 0, true)
    ensures Stuck(s, s', n, p)
  {
    hide Hidden;
    if !Hidden(s, PlaceOf(n, p)) { assert At(s', PlaceOf(n, p)) == 0; }
  }

  lemma FetchedIs(s: Fs, s': Fs, n: nat, p: nat, z: nat)
    requires TreeInv(s) && TreeInv(s') && s.dead == {} && Grown(s, s')
    requires n < |s.tree| && s.tree[n] && p < LIMIT
    requires z != 0 && Found(s, s', Place(n, PosOf(p / BLOCK_SIZE)), z, true)
    ensures z == At(s', Place(n, PosOf(p / BLOCK_SIZE)))
    ensures if z in s'.bad then Stuck(s, s', n, p) else Fetched(s, s', n, p)
  {
    HiddenKept(s, s', PlaceOf(n, p));
  }

  lemma FetchedAfter(s: Fs, s1: Fs, s2: Fs, n: nat, p: nat)
    requires Fetched(s, s1, n, p) && s2.owner == s1.owner
    ensures Fetched(s, s2, n, p)
  {
  }

  /** Up to the end of the block. */
  function Chunk(pos: nat, left: nat): nat {
    if left < BLOCK_SIZE - pos % BLOCK_SIZE then left else BLOCK_SIZE - pos % BLOCK_SIZE
  }

  lemma ChunkIs(pos: nat, left: nat, c: nat)
    requires c == BLOCK_SIZE - pos % BLOCK_SIZE < left || (c == left && left <= BLOCK_SIZE - pos % BLOCK_SIZE)
             || (c == left == BLOCK_SIZE - pos % BLOCK_SIZE) || (c == BLOCK_SIZE - pos % BLOCK_SIZE <= left)
    ensures c == Chunk(pos, left)
  {
  }

  /** The number of blocks that `k` bytes from `start` on touch. */
  function Touched(start: nat, k: nat): nat {
    if k == 0 then 0 else (start + k - 1) / BLOCK_SIZE - start / BLOCK_SIZE + 1
  }

  /** No block up to here was blocked, and no more than three zones a block have been used. */
  ghost predicate Going(s: Fs, s': Fs, n: nat, start: nat, i: nat, count: int) {
    && Shape(s) && n < |s.tree| && s.tree[n]
    && (forall p | start <= p < start + i :: !Blocked(s, n, p))
    && |s'.owner| <= |s.owner| + 3 * Touched(start, i)
    && (i == 0 || i == count || (start + i) % BLOCK_SIZE == 0)
  }

  /** Where a write ends: after `count` bytes, or exactly at the first byte whose block cannot be read, or at one that has
      no block when no zone is free. With readable blocks and enough free zones it is complete. */
  ghost predicate Ends(s: Fs, s': Fs, n: nat, start: nat, written: nat, count: int) {
    && Shape(s) && Shape(s') && n < |s.tree| && s.tree[n] && (count > 0 ==> start + count <= LIMIT)
    && (if count > 0 then written <= count else written == 0)
    && (forall p | start <= p < start + written :: !Blocked(s, n, p))
    && (written < count ==> Blocked(s, n, start + written) ||
                            (AllUsed(s') && At(s, PlaceOf(n, start + written)) == 0))
    && |s'.owner| <= |s.owner| + 3 * Touched(start, if count > 0 then count else 0)
    && (count > 0 && Readable(s, n) && |s.owner| + |s.leaked| + 3 * Touched(start, count) <= s.nzones - s.first ==>
          written == count)
  }

  lemma WroteNothing(s: Fs, n: nat, start: nat, buf: seq<Byte>, count: int)
    requires Shape(s) && n < |s.tree| && s.tree[n]
    ensures WroteTo(s, s, n, start, buf, 0) && Going(s, s, n, start, 0, count) && Kept(s, s)
  {
  }

  lemma WroteGrown(s: Fs, s1: Fs, s2: Fs, n: nat, start: nat, buf: seq<Byte>, i: nat, count: nat)
    requires TreeInv(s) && TreeInv(s1) && TreeInv(s2) && s.dead == {}
    requires WroteTo(s, s1, n, start, buf, i) && Kept(s, s1) && Going(s, s1, n, start, i, count)
    requires i < count && start + count <= LIMIT && Grown(s1, s2) && Stuck(s1, s2, n, start + i)
    ensures WroteTo(s, s2, n, start, buf, i) && Kept(s, s2) && Ends(s, s2, n, start, i, count)
  {
    hide At, TreeInv;
    KeptTrans(s, s1, s2);
    StuckBefore(s, s1, s2, n, start + i);
    TouchedMore(start, i, count);
    if Readable(s, n) {
      ReadableByte(s, n, start + i);
      FullCount(s2);
    }
  }

  lemma StuckBefore(s: Fs, s1: Fs, s2: Fs, n: nat, p: nat)
    requires TreeInv(s) && TreeInv(s1) && s.dead == {} && Kept(s, s1) && Stuck(s1, s2, n, p)
    requires n < |s.tree| && s.tree[n]
    ensures Blocked(s, n, p) ||
            (AllUsed(s2) && At(s, PlaceOf(n, p)) == 0 && |s2.owner| <= |s1.owner| + 2)
    ensures |s2.owner| <= |s1.owner| + 3
  {
    HiddenKept(s, s1, PlaceOf(n, p));
  }

  lemma TouchedMore(start: nat, i: nat, count: nat)
    requires i < count && (i == 0 || (start + i) % BLOCK_SIZE == 0)
    ensures Touched(start, count) >= Touched(start, i) + 1
    ensures var c := Chunk(start + i, count - i);
            && 0 < c <= count - i && Touched(start, i + c) == Touched(start, i) + 1
            && (i + c == count || (start + i + c) % BLOCK_SIZE == 0)
  {
  }

  lemma WroteMore(s: Fs, s1: Fs, s2: Fs, n: nat, start: nat, buf: seq<Byte>, i: nat, c: nat, count: nat)
    requires TreeInv(s) && TreeInv(s1) && s.dead == {}
    requires WroteTo(s, s1, n, start, buf, i) && Kept(s, s1) && Going(s, s1, n, start, i, count)
    requires i < count <= |buf| && start + count <= LIMIT && c == Chunk(start + i, count - i)
    requires Stored(s1, s2, n, start + i, buf[i..i + c]) && Kept(s1, s2) && Fetched(s1, s2, n, start + i)
    ensures i + c <= count && WroteTo(s, s2, n, start, buf, i + c) && Kept(s, s2) && Going(s, s2, n, start, i + c, count)
  {
    hide At, TreeInv;
    KeptTrans(s, s1, s2);
    TouchedMore(start, i, count);
    forall p | start + i <= p < start + i + c ensures !Blocked(s, n, p) {
      SameBlock(start + i, count - i, p);
      BlockedByBlock(s1, n, start + i, p);
      HiddenKept(s, s1, PlaceOf(n, p));
    }
  }

  lemma SameBlock(pos: nat, left: nat, p: nat)
    requires pos <= p < pos + Chunk(pos, left)
    ensures p / BLOCK_SIZE == pos / BLOCK_SIZE
  {
  }

  lemma BlockedByBlock(s: Fs, n: nat, p: nat, q: nat)
    requires Shape(s) && n < |s.tree| && s.tree[n] && p / BLOCK_SIZE == q / BLOCK_SIZE && p < LIMIT && q < LIMIT
    ensures Blocked(s, n, p) <==> Blocked(s, n, q)
  {
  }

  lemma WroteAll(s: Fs, s': Fs, n: nat, start: nat, i: nat, count: int)
    requires Shape(s') && Going(s, s', n, start, i, count) && (if count > 0 then i == count && start + count <= LIMIT else i == 0)
    ensures Ends(s, s', n, start, i, count)
  {
  }

  /** In terms of whole files: a write is an overwrite of one slice of one file. */
  lemma WriteIsOverwrite(s: Fs, s': Fs, n: nat, start: nat, buf: seq<Byte>, k: nat)
    requires WroteTo(s, s', n, start, buf, k) && n < |s.tree| && s.tree[n] && start + k <= LIMIT
    ensures FileOf(s', n) == FileOf(s, n)[..start] + buf[..k] + FileOf(s, n)[start + k..]
    ensures forall m | 0 <= m < |s.tree| && s.tree[m] && m != n :: FileOf(s', m) == FileOf(s, m)
  {
    forall p | 0 <= p < LIMIT
      ensures FileOf(s', n)[p] == (FileOf(s, n)[..start] + buf[..k] + FileOf(s, n)[start + k..])[p]
    {
      assert ByteAt(s', n, p) == if start <= p < start + k then buf[p - start] else ByteAt(s, n, p);
    }
    forall m | 0 <= m < |s.tree| && s.tree[m] && m != n ensures FileOf(s', m) == FileOf(s, m) {
      assert forall p | 0 <= p < LIMIT :: ByteAt(s', m, p) == ByteAt(s, m, p);
    }
  }

  ghost function FlatFiles(s: Fs, size: seq<nat>): seq<Flat>
    requires Shape(s) && |size| == |s.tree|
  {
    seq(|size|, n requires 0 <= n < |size| => if s.tree[n] then Flat(FileOf(s, n), size[n]) else NoFile)
  }

  /** Nothing is mapped and no zone is in use. */
  ghost predicate EmptyFs(s: Fs) {
    && Shape(s) && (forall n | 0 <= n < |s.zone| :: s.zone[n] == seq(9, _ => 0))
    && s.owner == map[] && s.leaked == {} && s.dead == {}
    && (forall i | 0 <= i < |s.bits| :: s.bits[i] <==> i == 0 || i > s.nzones - s.first)
  }

  lemma EmptyInv(s: Fs)
    requires EmptyFs(s)
    ensures TreeInv(s)
    ensures forall pl | IsPlace(s, pl) :: At(s, pl) == 0
  {
    forall pl | IsPlace(s, pl) ensures At(s, pl) == 0 { EmptyAt(s, pl); }
    assert forall pl | IsPlace(s, pl) :: PlaceOk(s, pl);
  }

  lemma {:induction false} EmptyAt(s: Fs, pl: Place)
    requires EmptyFs(s) && IsPlace(s, pl)
    ensures At(s, pl) == 0
    decreases if pl.pos.Leaf? then 2 else if pl.pos.Zone? then 0 else 1
  {
    if !pl.pos.Zone? { EmptyAt(s, Place(pl.n, Parent(pl.pos))); }
  }

  lemma EmptyFiles(s: Fs, size: seq<nat>)
    requires EmptyFs(s) && |size| == |s.tree| && forall n | 0 <= n < |size| :: size[n] == 0
    ensures forall n | 0 <= n < |size| :: FlatFiles(s, size)[n] == if s.tree[n] then Flat(seq(LIMIT, _ => 0), 0) else NoFile
  {
    EmptyInv(s);
    forall n | 0 <= n < |size| && s.tree[n] ensures FileOf(s, n) == seq(LIMIT, _ => 0) {
      assert forall p | 0 <= p < LIMIT :: ByteAt(s, n, p) == 0;
    }
  }

  // ---------- Runs ----------

  /** The trees and the sizes of all files. */
  datatype Snap = Snap(s: Fs, size: seq<nat>)

  ghost predicate SnapOk(a: Snap) { TreeInv(a.s) && a.s.dead == {} && |a.size| == |a.s.tree| }

  function Start(a: Snap, op: FileOp): nat
    requires op.WriteOp? && op.n < |a.size|
  {
    if op.append then a.size[op.n] else op.fpos
  }

  predicate Allowed(a: Snap, op: FileOp)
    requires |a.size| == |a.s.tree|
  {
    op.n < |a.size| && a.s.tree[op.n] && (op.WriteOp? ==> Start(a, op) + |op.buf| <= LIMIT)
  }

  /** One operation: what it does to the files, and how far a write comes. */
  ghost predicate TreeStep(a: Snap, b: Snap, op: FileOp, k: nat) {
    && SnapOk(a) && SnapOk(b) && FlatFiles(b.s, b.size) == FlatStep(FlatFiles(a.s, a.size), op, k)
    && if !Allowed(a, op) then b == a && k == 0
       else if op.WriteOp? then Kept(a.s, b.s) && Ends(a.s, b.s, op.n, Start(a, op), k, |op.buf|)
       else Truncated(a.s, b.s, op.n) && k == 0
  }

  ghost predicate TreeRun(trace: seq<Snap>, ops: seq<FileOp>, ks: seq<nat>) {
    && |trace| == |ops| + 1 && |ks| == |ops|
    && forall i | 0 <= i < |ops| :: TreeStep(trace[i], trace[i + 1], ops[i], ks[i])
  }

  lemma RunFrom(a: Snap, rest: seq<Snap>, ops: seq<FileOp>, k: nat, ls: seq<nat>)
    requires ops != [] && TreeRun(rest, ops[1..], ls) && TreeStep(a, rest[0], ops[0], k)
    ensures TreeRun([a] + rest, ops, [k] + ls)
  {
    hide TreeStep;
    var t, ks := [a] + rest, [k] + ls;
    forall i | 0 <= i < |ops| ensures TreeStep(t[i], t[i + 1], ops[i], ks[i]) {
      if i > 0 { assert TreeStep(rest[i - 1], rest[i], ops[1..][i - 1], ls[i - 1]); }
    }
  }

  lemma FlatRunFrom(files: seq<Flat>, ops: seq<FileOp>, k: nat, ls: seq<nat>)
    requires ops != [] && |ls| == |ops| - 1
    ensures FlatRun(files, ops, [k] + ls) == FlatRun(FlatStep(files, ops[0], k), ops[1..], ls)
  {
    assert ([k] + ls)[1..] == ls;
  }

  lemma StepFiles(a: Snap, b: Snap, op: FileOp, k: nat)
    requires TreeStep(a, b, op, k)
    ensures SnapOk(a) && SnapOk(b) && Shape(a.s) && Shape(b.s)
    ensures FlatFiles(b.s, b.size) == FlatStep(FlatFiles(a.s, a.size), op, k)
  {
  }

  lemma WriteStep(a: Snap, b: Snap, n: nat, fpos: nat, append: bool, buf: seq<Byte>, k: nat)
    requires SnapOk(a) && SnapOk(b) && b.s.tree == a.s.tree && n < |a.s.tree| && a.s.tree[n]
    requires (if append then a.size[n] else fpos) + |buf| <= LIMIT
    requires var start := if append then a.size[n] else fpos;
             && WroteTo(a.s, b.s, n, start, buf, k) && Kept(a.s, b.s) && Ends(a.s, b.s, n, start, k, |buf|)
             && b.size == a.size[n := if k > 0 && start + k > a.size[n] then start + k else a.size[n]]
    ensures TreeStep(a, b, WriteOp(n, fpos, append, buf), k)
  {
    var start := if append then a.size[n] else fpos;
    WriteIsOverwrite(a.s, b.s, n, start, buf, k);
    assert Shape(a.s) && Shape(b.s) && k <= |buf|;
    hide Kept, Ends, TreeInv, WroteTo, FileOf, Shape, FlatStep;
    FlatWrite(FlatFiles(a.s, a.size), FlatFiles(b.s, b.size), WriteOp(n, fpos, append, buf), k);
  }

  /** A write, file by file. */
  lemma FlatWrite(a: seq<Flat>, b: seq<Flat>, op: FileOp, k: nat)
    requires op.WriteOp? && LegalOp(a, op) && k <= |op.buf| && |a| == |b|
    requires forall m | 0 <= m < |a| && m != op.n :: b[m] == a[m]
    requires var f, start := a[op.n], StartOf(a[op.n], op);
             b[op.n] == Flat(f.data[..start] + op.buf[..k] + f.data[start + k..],
                             if k > 0 && start + k > f.size then start + k else f.size)
    ensures b == FlatStep(a, op, k)
  {
  }

  lemma TruncateStep(a: Snap, b: Snap, n: nat)
    requires SnapOk(a) && SnapOk(b) && Truncated(a.s, b.s, n) && n < |a.s.tree| && a.s.tree[n]
    requires b.size == a.size[n := 0]
    ensures TreeStep(a, b, TruncateOp(n), 0)
  {
    TruncatedFiles(a.s, b.s, n);
    hide TreeInv;
  }

  lemma NoStep(a: Snap, op: FileOp)
    requires SnapOk(a) && !Allowed(a, op)
    ensures TreeStep(a, a, op, 0)
  {
    hide TreeInv;
  }

  // ---------- Runs with enough space ----------

  function Sizes(ops: seq<FileOp>): (ks: seq<nat>)
    ensures |ks| == |ops|
  {
    seq(|ops|, i requires 0 <= i < |ops| => if ops[i].WriteOp? then |ops[i].buf| else 0)
  }

  /** The zones that an operation can need: for each block a data zone and two index zones. */
  function Need(op: FileOp): nat {
    if op.WriteOp? then 3 * (|op.buf| / BLOCK_SIZE + 2) else 0
  }

  function NeedAll(ops: seq<FileOp>): nat {
    if ops == [] then 0 else Need(ops[0]) + NeedAll(ops[1..])
  }

  /** Every zone in use can be read, and there are as many free zones as the operations can need. */
  ghost predicate EnoughFor(s: Fs, ops: seq<FileOp>) {
    && (forall z | z in s.owner :: z !in s.bad)
    && |s.owner| + |s.leaked| + NeedAll(ops) <= s.nzones - s.first
  }

  lemma EnoughNext(a: Snap, b: Snap, ops: seq<FileOp>, k: nat)
    requires ops != [] && TreeStep(a, b, ops[0], k) && EnoughFor(a.s, ops)
    ensures EnoughFor(b.s, ops[1..])
    ensures FlatStep(FlatFiles(a.s, a.size), ops[0], k) == FlatStep(FlatFiles(a.s, a.size), ops[0], Sizes(ops)[0])
  {
    hide SnapOk, FlatFiles, FlatStep, Kept, Ends, Truncated, Shape;
    StepFiles(a, b, ops[0], k);
    if !Allowed(a, ops[0]) {
      NotLegal(a, ops[0]);
      IllegalStep(FlatFiles(a.s, a.size), ops[0], k, Sizes(ops)[0]);
    } else if ops[0].WriteOp? {
      WriteNext(a, b, ops, k);
    } else {
      TruncateNext(a, b, ops);
    }
  }

  lemma IllegalStep(files: seq<Flat>, op: FileOp, k: nat, l: nat)
    requires !LegalOp(files, op)
    ensures FlatStep(files, op, k) == FlatStep(files, op, l)
  {
  }

  lemma WriteNext(a: Snap, b: Snap, ops: seq<FileOp>, k: nat)
    requires ops != [] && ops[0].WriteOp? && SnapOk(a) && SnapOk(b) && Allowed(a, ops[0]) && EnoughFor(a.s, ops)
    requires Kept(a.s, b.s) && Ends(a.s, b.s, ops[0].n, Start(a, ops[0]), k, |ops[0].buf|)
    ensures EnoughFor(b.s, ops[1..]) && k == |ops[0].buf|
  {
    hide At, TreeInv, Blocked;
    var op := ops[0];
    assert Readable(a.s, op.n);
    TouchedFew(Start(a, op), |op.buf|);
  }

  lemma TruncateNext(a: Snap, b: Snap, ops: seq<FileOp>)
    requires ops != [] && ops[0].TruncateOp? && SnapOk(a) && SnapOk(b) && Truncated(a.s, b.s, ops[0].n)
    requires EnoughFor(a.s, ops)
    ensures EnoughFor(b.s, ops[1..])
  {
    hide At, TreeInv, LostZones;
    NothingLost(a.s, ops[0].n);
    FewerKeys(a.s.owner, b.s.owner);
  }

  lemma TouchedFew(start: nat, count: nat)
    ensures Touched(start, count) <= count / BLOCK_SIZE + 2
  {
  }

  lemma FewerKeys(m: map<nat, Place>, t: map<nat, Place>)
    requires t.Keys <= m.Keys
    ensures |t| <= |m|
  {
    Fewer(t.Keys, m.Keys);
  }

  lemma NotLegal(a: Snap, op: FileOp)
    requires SnapOk(a) && !Allowed(a, op)
    ensures !LegalOp(FlatFiles(a.s, a.size), op)
  {
  }

  lemma {:induction false} Complete(trace: seq<Snap>, ops: seq<FileOp>, ks: seq<nat>)
    requires TreeRun(trace, ops, ks) && EnoughFor(trace[0].s, ops) && (ops == [] ==> SnapOk(trace[0]))
    ensures SnapOk(trace[0])
    ensures var files := FlatFiles(trace[0].s, trace[0].size);
            FlatRun(files, ops, ks) == FlatRun(files, ops, Sizes(ops))
    decreases |ops|
  {
    hide TreeStep, FlatStep, FlatFiles, TreeInv;
    if ops != [] {
      assert TreeStep(trace[0], trace[1], ops[0], ks[0]);
      StepFiles(trace[0], trace[1], ops[0], ks[0]);
      EnoughNext(trace[0], trace[1], ops, ks[0]);
      assert TreeRun(trace[1..], ops[1..], ks[1..]);
      Complete(trace[1..], ops[1..], ks[1..]);
      assert Sizes(ops)[1..] == Sizes(ops[1..]);
    }
  }

  /** `out` is what a program sees in file `n` from `pos` on, and all of it could be read. */
  ghost predicate ReadFrom(s: Fs, n: nat, pos: nat, out: seq<Byte>) {
    && Shape(s) && n < |s.tree| && s.tree[n] && pos + |out| <= LIMIT
    && forall i | 0 <= i < |out| :: out[i] == SeenAt(s, n, pos + i) && !Broken(s, PlaceOf(n, pos + i))
  }

  lemma ReadNothing(s: Fs, n: nat, pos: nat)
    requires Shape(s) && n < |s.tree| && s.tree[n] && pos <= LIMIT
    ensures ReadFrom(s, n, pos, [])
  {
  }

  lemma ReadMore(s: Fs, n: nat, pos: nat, out: seq<Byte>, piece: seq<Byte>)
    requires ReadFrom(s, n, pos, out) && ReadFrom(s, n, pos + |out|, piece)
    ensures ReadFrom(s, n, pos, out + piece)
  {
    hide SeenAt, Broken, PosOf;
    forall i | |out| <= i < |out + piece|
      ensures (out + piece)[i] == SeenAt(s, n, pos + i) && !Broken(s, PlaceOf(n, pos + i))
    {
      assert (out + piece)[i] == piece[i - |out|] && pos + i == pos + |out| + (i - |out|);
    }
  }

  lemma StopsHere(s: Fs, n: nat, p: nat, z: nat)
    requires p < LIMIT && Found(s, s, Place(n, PosOf(p / BLOCK_SIZE)), z, false) && z != 0 && z in s.bad
    ensures Broken(s, PlaceOf(n, p))
  {
  }

  lemma ReadBlock(s: Fs, n: nat, pos: nat, nr: nat, out: seq<Byte>)
    requires Shape(s) && n < |s.tree| && s.tree[n] && pos < LIMIT && pos % BLOCK_SIZE + |out| <= BLOCK_SIZE
    requires Mapped(s, s, Place(n, PosOf(pos / BLOCK_SIZE)), nr) && nr < s.nzones && (nr != 0 ==> nr !in s.bad)
    requires forall k | 0 <= k < |out| :: out[k] == if nr == 0 then 0 else s.blocks[nr][pos % BLOCK_SIZE + k]
    ensures ReadFrom(s, n, pos, out)
  {
    BlockBytes(s, n, pos, |out|);
    forall i | 0 <= i < |out| ensures out[i] == SeenAt(s, n, pos + i) && !Broken(s, PlaceOf(n, pos + i)) {
      assert (pos + i) / BLOCK_SIZE == pos / BLOCK_SIZE;
    }
  }

  lemma ReadWhole(s: Fs, n: nat, pos: nat, out: seq<Byte>, count: nat)
    requires TreeInv(s) && s.dead == {} && ReadFrom(s, n, pos, out) && |out| <= count && pos + count <= LIMIT
    requires |out| < count ==> Broken(s, PlaceOf(n, pos + |out|))
    ensures Readable(s, n) ==> out == FileOf(s, n)[pos..pos + count]
  {
    if Readable(s, n) {
      if |out| < count { ReadableByte(s, n, pos + |out|); }
      forall i | 0 <= i < |out| ensures out[i] == ByteAt(s, n, pos + i) {
        ReadableByte(s, n, pos + i);
      }
    }
  }

  lemma PositionInFile(pos: nat)
    requires pos < LIMIT
    ensures pos / BLOCK_SIZE < MAX_BLOCKS && pos % BLOCK_SIZE < BLOCK_SIZE == 1024
  {
  }

  lemma BlockBytes(s: Fs, n: nat, pos: nat, chars: nat)
    requires Shape(s) && n < |s.tree| && s.tree[n] && pos < LIMIT && pos % BLOCK_SIZE + chars <= BLOCK_SIZE
    ensures pos + chars <= LIMIT
    ensures var z := At(s, Place(n, PosOf(pos / BLOCK_SIZE)));
            forall p | pos <= p < pos + chars ::
              ByteAt(s, n, p) == if 0 < z < s.nzones then s.blocks[z][pos % BLOCK_SIZE + (p - pos)] else 0
  {
    forall p | pos <= p < pos + chars
      ensures p / BLOCK_SIZE == pos / BLOCK_SIZE && p % BLOCK_SIZE == pos % BLOCK_SIZE + (p - pos)
    {
    }
  }

  lemma SameAtTrans(s: Fs, s1: Fs, s2: Fs)
    requires Shape(s) && Shape(s1) && Shape(s2) && SameAt(s, s1) && SameAt(s1, s2)
    requires SameShape(s, s1) && SameShape(s1, s2)
    ensures SameAt(s, s2) && SameShape(s, s2)
  {
  }

  lemma ClearedStays(s: Fs, s': Fs, n: nat, top: Pos, i: nat)
    requires Shape(s) && Shape(s') && SameShape(s, s') && SameAt(s, s') && IsIndex(top)
    requires s.dead <= s'.dead && Cleared(s', Place(n, Child(top, i)))
    requires forall l | 0 <= l < i :: Cleared(s, Place(n, Child(top, l)))
    ensures forall l | 0 <= l < i + 1 :: Cleared(s', Place(n, Child(top, l)))
  {
  }

  /** At the start, `block` was the number at an index place that could be reached. */
  ghost predicate InSight(s0: Fs, n: nat, top: Pos, block: nat) {
    Shape(s0) && IsPlace(s0, Place(n, top)) && !Hidden(s0, Place(n, top)) && At(s0, Place(n, top)) == block
  }

  /** Every place below the index block of `top` is lost; nothing else is. */
  ghost predicate EntriesGone(s0: Fs, s: Fs, s': Fs, n: nat, top: Pos) {
    && Torn(s0, s', n) && Shape(s) && Shape(s') && SameAt(s, s') && SameShape(s, s') && s.dead <= s'.dead
    && IsPlace(s, Place(n, top)) && IsPlace(s', Place(n, top)) && At(s', Place(n, top)) == At(s, Place(n, top))
    && Place(n, top) !in s'.dead
    && (forall pl | pl in s'.dead :: pl in s.dead || (pl.n == n && Below(top, pl.pos)))
    && forall p | ValidPos(p) && Below(top, p) :: Cleared(s', Place(n, p))
  }

  lemma EntriesLost(s0: Fs, s: Fs, n: nat, top: Pos)
    requires TreeInv(s0) && Torn(s0, s, n) && Shape(s) && IsPlace(s, Place(n, top)) && IsIndex(top) && Place(n, top) !in s.dead
    requires Shape(s0) && IsPlace(s0, Place(n, top)) && At(s0, Place(n, top)) != 0 && At(s0, Place(n, top)) in s0.bad
    ensures var s' := Leak(s, ZonesBelow(s, n, top));
            EntriesGone(s0, s, s', n, top) && s' == s.(owner := s'.owner, leaked := s'.leaked, dead := s'.dead)
  {
    hide Torn, TreeInv, At, Cleared, ZonesBelow, Below, Shape, IsPlace, IsIndex;
    TornLeak(s0, s, n, top);
    TornShape(s0, Leak(s, ZonesBelow(s, n, top)), n);
    NotBelowItself(top);
  }

  lemma NotBelowItself(top: Pos)
    ensures !Below(top, top)
  {
  }

  lemma TornShape(s0: Fs, s: Fs, n: nat)
    requires Torn(s0, s, n)
    ensures Shape(s0) && Shape(s)
  {
  }

  lemma InSightIs(s0: Fs, n: nat, top: Pos, block: nat)
    requires InSight(s0, n, top, block)
    ensures Shape(s0) && IsPlace(s0, Place(n, top)) && !Hidden(s0, Place(n, top)) && At(s0, Place(n, top)) == block
  {
  }

  lemma ChildInSight(s0: Fs, n: nat, top: Pos, block: nat, i: nat)
    requires InSight(s0, n, top, block) && block !in s0.bad && IsIndex(top) && i < 512
    ensures IsPlace(s0, Place(n, Child(top, i))) && !Hidden(s0, Place(n, Child(top, i)))
  {
  }

  lemma IndexInRange(s0: Fs, s: Fs, n: nat, top: Pos)
    requires Torn(s0, s, n) && IsPlace(s, Place(n, top)) && Place(n, top) !in s.dead
    ensures Shape(s) && At(s, Place(n, top)) < s.nzones
  {
    assert PlaceOk(s, Place(n, top));
    if At(s, Place(n, top)) != 0 { assert OwnerOk(s, At(s, Place(n, top))); }
  }

  lemma BelowChildren(top: Pos)
    requires IsIndex(top)
    ensures !Below(top, top)
    ensures forall l | 0 <= l < 512 :: Below(top, Child(top, l))
  {
  }

  lemma ClearedAfter(s: Fs, s1: Fs, s2: Fs, n: nat, top: Pos)
    requires Shape(s) && Shape(s1) && Shape(s2) && SameAt(s, s1) && SameAt(s1, s2)
    requires SameShape(s, s1) && SameShape(s1, s2) && IsIndex(top) && s2.dead == s1.dead + {Place(n, top)}
    requires forall l | 0 <= l < 512 :: Cleared(s1, Place(n, Child(top, l)))
    ensures SameAt(s, s2) && SameShape(s, s2) && Cleared(s2, Place(n, top))
    ensures forall l | 0 <= l < 512 :: Cleared(s2, Place(n, Child(top, l)))
  {
  }

  predicate Early(p: Pos, l: nat) {
    (p.Mid? || p.Leaf?) && p.k < l
  }

  ghost predicate MidCleared(s: Fs, n: nat, k: nat)
    requires Shape(s)
  {
    Cleared(s, Place(n, Mid(k))) && forall j | 0 <= j < 512 :: Cleared(s, Place(n, Leaf(k, j)))
  }

  lemma ShapeOf(s0: Fs, s: Fs, n: nat)
    requires Torn(s0, s, n)
    ensures Shape(s) && SameShape(s, s)
  {
  }

  lemma EarlyMonotone()
    ensures forall p, l: nat | Early(p, l) :: Early(p, l + 1)
    ensures forall p: Pos :: !Early(p, 0)
    ensures forall l: nat :: !Early(Zone(8), l)
  {
  }

  lemma MidsUntouched(s: Fs, n: nat, l: nat, before: set<Place>)
    requires l < 512 && forall pl | pl in before :: !Early(pl.pos, 512)
    requires forall pl | pl in s.dead :: pl in before || (pl.n == n && Early(pl.pos, l))
    ensures Place(n, Mid(l)) !in s.dead && forall j | 0 <= j < 512 :: Place(n, Leaf(l, j)) !in s.dead
  {
  }

  lemma AllMids(s: Fs, n: nat)
    requires Shape(s) && forall p | ValidPos(p) && Below(Zone(8), p) :: Cleared(s, Place(n, p))
    ensures forall k | 0 <= k < 512 :: MidCleared(s, n, k)
  {
    forall k | 0 <= k < 512 ensures MidCleared(s, n, k) {
      assert Below(Zone(8), Mid(k));
      assert forall j | 0 <= j < 512 :: Below(Zone(8), Leaf(k, j));
    }
  }

  lemma MidsStay(s: Fs, s1: Fs, s2: Fs, n: nat, l: nat)
    requires Shape(s) && Shape(s1) && Shape(s2) && SameAt(s, s1) && SameAt(s1, s2)
    requires SameShape(s, s1) && SameShape(s1, s2) && s1.dead <= s2.dead
    requires (forall k | 0 <= k < l :: MidCleared(s1, n, k)) && MidCleared(s2, n, l)
    ensures SameAt(s, s2) && SameShape(s, s2) && forall k | 0 <= k < l + 1 :: MidCleared(s2, n, k)
  {
    forall k | 0 <= k < l ensures MidCleared(s2, n, k) {
      MidStays(s1, s2, n, k);
    }
  }

  lemma MidStays(s1: Fs, s2: Fs, n: nat, k: nat)
    requires Shape(s1) && Shape(s2) && SameAt(s1, s2) && SameShape(s1, s2) && s1.dead <= s2.dead
    requires MidCleared(s1, n, k)
    ensures MidCleared(s2, n, k)
  {
    assert Cleared(s1, Place(n, Mid(k)));
    forall j | 0 <= j < 512 ensures Cleared(s2, Place(n, Leaf(k, j))) {
      assert Cleared(s1, Place(n, Leaf(k, j)));
    }
  }

  lemma MidsAfter(s: Fs, s1: Fs, s2: Fs, n: nat)
    requires Shape(s) && Shape(s1) && Shape(s2) && SameAt(s, s1) && SameAt(s1, s2)
    requires SameShape(s, s1) && SameShape(s1, s2) && s2.dead == s1.dead + {Place(n, Zone(8))}
    requires forall k | 0 <= k < 512 :: MidCleared(s1, n, k)
    ensures SameAt(s, s2) && SameShape(s, s2) && Cleared(s2, Place(n, Zone(8)))
    ensures forall k | 0 <= k < 512 :: MidCleared(s2, n, k)
  {
    forall k | 0 <= k < 512 ensures MidCleared(s2, n, k) {
      MidStays(s1, s2, n, k);
    }
  }

  lemma TornStart(s: Fs, n: nat)
    requires TreeInv(s) && s.dead == {}
    ensures Torn(s, s, n)
  {
  }

  lemma IndirectsReady(s: Fs, n: nat)
    requires Shape(s) && n < |s.zone| && s.tree[n] && forall pl | pl in s.dead :: pl.pos.Zone? && pl.pos.i < 7
    ensures IsPlace(s, Place(n, Zone(7))) && IsPlace(s, Place(n, Zone(8)))
    ensures s.zone[n][7] == At(s, Place(n, Zone(7))) && s.zone[n][8] == At(s, Place(n, Zone(8)))
    ensures Place(n, Zone(7)) !in s.dead && forall l | 0 <= l < 512 :: Place(n, Child(Zone(7), l)) !in s.dead
  {
  }

  lemma IndirectsInSight(s0: Fs, s: Fs, n: nat)
    requires TreeInv(s0) && Torn(s0, s, n) && n < |s.zone| && s.tree[n] && |s.zone[n]| == 9
    ensures InSight(s0, n, Zone(7), s.zone[n][7]) && InSight(s0, n, Zone(8), s.zone[n][8])
  {
    TornAt(s0, s, n, Zone(7));
    TornAt(s0, s, n, Zone(8));
  }

  lemma IndirectsNext(s: Fs, s1: Fs, n: nat)
    requires Shape(s) && Shape(s1) && SameAt(s, s1) && IsPlace(s, Place(n, Zone(8)))
    requires forall pl | pl in s.dead :: pl.pos.Zone? && pl.pos.i < 7
    requires forall pl | pl in s1.dead :: pl in s.dead || pl == Place(n, Zone(7)) || (pl.n == n && Below(Zone(7), pl.pos))
    ensures IsPlace(s1, Place(n, Zone(8))) && At(s1, Place(n, Zone(8))) == At(s, Place(n, Zone(8)))
    ensures Place(n, Zone(8)) !in s1.dead && forall pl | pl in s1.dead :: !Early(pl.pos, 512)
  {
  }

  lemma AllCleared(s: Fs, s1: Fs, s2: Fs, n: nat)
    requires Shape(s) && Shape(s1) && Shape(s2) && SameAt(s, s1) && SameAt(s1, s2) && n < |s.zone| && s.tree[n]
    requires SameShape(s, s1) && SameShape(s1, s2) && s1.dead <= s2.dead
    requires forall k | 0 <= k < 7 :: s.zone[n][k] == 0
    requires Cleared(s1, Place(n, Zone(7))) && forall l | 0 <= l < 512 :: Cleared(s1, Place(n, Child(Zone(7), l)))
    requires Cleared(s2, Place(n, Zone(8))) && forall k | 0 <= k < 512 :: MidCleared(s2, n, k)
    ensures forall p | ValidPos(p) :: Cleared(s2, Place(n, p))
  {
    forall p | ValidPos(p) ensures Cleared(s2, Place(n, p)) {
      match p
      case Zone(i) => if i < 7 { assert At(s, Place(n, Zone(i))) == 0; }
      case Ind(l) => assert Child(Zone(7), l) == p && Cleared(s1, Place(n, Child(Zone(7), l)));
      case Mid(k) => assert MidCleared(s2, n, k);
      case Leaf(k, l) => assert MidCleared(s2, n, k);
    }
  }
}
