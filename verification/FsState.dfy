/** The block trees of a Minix file system on values: inodes, index blocks, the zone bitmap, and who owns each zone. */
module FsState {
  const BLOCK_SIZE := 1024

  type Byte = b: int | 0 <= b < 256
  type Block = b: seq<Byte> | |b| == 1024 witness seq(1024, _ => 0)

  function ZeroBlock(): (b: Block) { seq(1024, _ => 0) }

  /** Entry `k` of an index block: a 16-bit little-endian zone number. */
  function Word16(b: Block, k: nat): nat
    requires k < 512
  {
    var low: int, high: int := b[2 * k], b[2 * k + 1];
    low + 256 * high
  }

  function SetWord16(b: Block, k: nat, w: nat): Block
    requires k < 512 && w < 0x1_0000
  {
    b[2 * k := w % 256][2 * k + 1 := w / 256]
  }

  lemma SetWord16Reads(b: Block, k: nat, w: nat, j: nat)
    requires k < 512 && j < 512 && w < 0x1_0000
    ensures Word16(SetWord16(b, k, w), j) == if j == k then w else Word16(b, j)
  {
  }

  /** Where a zone number is kept: in the inode itself, in the single-indirect block, in the
      double-indirect block, or in a block named by the latter. */
  datatype Pos = Zone(i: nat) | Ind(k: nat) | Mid(k: nat) | Leaf(k: nat, l: nat)

  datatype Place = Place(n: nat, pos: Pos)

  predicate ValidPos(p: Pos) {
    match p
    case Zone(i) => i < 9
    case Ind(k) => k < 512
    case Mid(k) => k < 512
    case Leaf(k, l) => k < 512 && l < 512
  }

  /** Positions that hold index blocks rather than data. */
  predicate IsIndex(p: Pos) { p == Zone(7) || p == Zone(8) || p.Mid? }

  /** The position of the index block that holds `p`, and the entry in it. */
  function Parent(p: Pos): Pos
    requires !p.Zone?
  {
    match p
    case Ind(_) => Zone(7)
    case Mid(_) => Zone(8)
    case Leaf(k, _) => Mid(k)
  }

  function Slot(p: Pos): nat
    requires !p.Zone?
  {
    match p
    case Ind(k) => k
    case Mid(k) => k
    case Leaf(_, l) => l
  }

  /** `dead` lists places whose zone has been freed while the number is still stored (inside truncate). `bad` are the zones
      that cannot be read: neither from the disk nor because their block is in the buffer cache. */
  datatype Fs = Fs(
    zone: seq<seq<nat>>, tree: seq<bool>, blocks: seq<Block>, bits: seq<bool>, first: nat, nzones: nat,
    owner: map<nat, Place>, leaked: set<nat>, dead: set<Place>, bad: set<nat>)

  predicate Shape(s: Fs) {
    && |s.tree| == |s.zone|
    && (forall n | 0 <= n < |s.zone| :: |s.zone[n]| == 9)
    && 1 <= s.first <= s.nzones < 0x1_0000
    && |s.blocks| == s.nzones
    && s.nzones - s.first + 1 <= |s.bits|
  }

  /** The inode is a regular file or a directory, so its zone numbers are zones. */
  predicate IsPlace(s: Fs, pl: Place)
    requires Shape(s)
  {
    pl.n < |s.zone| && s.tree[pl.n] && ValidPos(pl.pos)
  }

  predicate DataZone(s: Fs, z: nat) { s.first <= z < s.nzones }

  predicate BitOf(s: Fs, z: nat)
    requires Shape(s) && DataZone(s, z)
  {
    s.bits[z - s.first + 1]
  }

  /** The zone number stored at a place, 0 when the index block above it is missing. */
  function At(s: Fs, pl: Place): nat
    requires Shape(s) && IsPlace(s, pl)
    decreases if pl.pos.Leaf? then 2 else if pl.pos.Zone? then 0 else 1
  {
    if pl.pos.Zone? then s.zone[pl.n][pl.pos.i]
    else
      var p := At(s, Place(pl.n, Parent(pl.pos)));
      if 0 < p < s.nzones then Word16(s.blocks[p], Slot(pl.pos)) else 0
  }

  /** An index block on the way to a place exists and cannot be read. */
  predicate Hidden(s: Fs, pl: Place)
    requires Shape(s) && IsPlace(s, pl)
    decreases if pl.pos.Leaf? then 2 else if pl.pos.Zone? then 0 else 1
  {
    !pl.pos.Zone? && var up := Place(pl.n, Parent(pl.pos));
      Hidden(s, up) || (At(s, up) != 0 && At(s, up) in s.bad)
  }

  /** The block at a place can be reached, exists, and cannot be read. */
  predicate Broken(s: Fs, pl: Place)
    requires Shape(s) && IsPlace(s, pl)
  {
    !Hidden(s, pl) && At(s, pl) != 0 && At(s, pl) in s.bad
  }

  /** All zones of inode `n` can be read. */
  ghost predicate Readable(s: Fs, n: nat) {
    forall z | z in s.owner && s.owner[z].n == n :: z !in s.bad
  }

  /** Every zone number in use is owned by the one place it is stored at. */
  ghost predicate PlaceOk(s: Fs, pl: Place)
    requires Shape(s) && IsPlace(s, pl)
  {
    pl in s.dead || At(s, pl) == 0 || (At(s, pl) in s.owner && s.owner[At(s, pl)] == pl)
  }

  ghost predicate OwnerOk(s: Fs, z: nat)
    requires Shape(s) && z in s.owner
  {
    && DataZone(s, z) && z !in s.leaked
    && IsPlace(s, s.owner[z]) && s.owner[z] !in s.dead && At(s, s.owner[z]) == z
  }

  /** The invariant of all block trees against the zone bitmap. */
  ghost predicate TreeInv(s: Fs) {
    && Shape(s)
    && (forall pl | IsPlace(s, pl) :: PlaceOk(s, pl))
    && (forall z | z in s.owner :: OwnerOk(s, z))
    && (forall z | z in s.leaked :: DataZone(s, z))
    && (forall z | DataZone(s, z) :: BitOf(s, z) <==> z in s.owner || z in s.leaked)
    && s.bits[0]
  }

  /** Distinct places never name the same zone. */
  lemma PlacesDistinct(s: Fs, a: Place, b: Place)
    requires TreeInv(s) && IsPlace(s, a) && IsPlace(s, b) && a != b && a !in s.dead && b !in s.dead
    requires At(s, a) != 0
    ensures At(s, a) != At(s, b) && DataZone(s, At(s, a))
  {
    assert PlaceOk(s, a) && PlaceOk(s, b);
    assert OwnerOk(s, At(s, a));
  }

  /** No place owns two zones. */
  lemma OwnerInjective(s: Fs)
    requires TreeInv(s)
    ensures forall y, z | y in s.owner && z in s.owner && s.owner[y] == s.owner[z] :: y == z
  {
    forall y, z | y in s.owner && z in s.owner && s.owner[y] == s.owner[z] ensures y == z {
      assert OwnerOk(s, y) && OwnerOk(s, z);
    }
  }

  lemma {:induction false} ReadableAt(s: Fs, pl: Place)
    requires TreeInv(s) && s.dead == {} && IsPlace(s, pl) && Readable(s, pl.n)
    ensures !Hidden(s, pl) && !Broken(s, pl)
    decreases if pl.pos.Leaf? then 2 else if pl.pos.Zone? then 0 else 1
  {
    assert PlaceOk(s, pl);
    if !pl.pos.Zone? {
      ReadableAt(s, Place(pl.n, Parent(pl.pos)));
    }
  }

  /** No zone is free. */
  ghost predicate AllUsed(s: Fs)
    requires Shape(s)
  {
    forall z | DataZone(s, z) :: BitOf(s, z)
  }

  /** No zone is free only when as many are in use as there are. */
  lemma FullCount(s: Fs)
    requires TreeInv(s) && AllUsed(s)
    ensures |s.owner| + |s.leaked| == s.nzones - s.first
  {
    hide TreeInv, BitOf;
    UsedZone(s, 0);
    forall z: nat ensures z in Range(s.first, s.nzones) <==> z in s.owner || z in s.leaked {
      UsedZone(s, z);
    }
    forall z | z in s.owner ensures z !in s.leaked { UsedZone(s, z); }
    CountBoth(s, Range(s.first, s.nzones));
  }

  lemma UsedZone(s: Fs, z: nat)
    requires TreeInv(s) && AllUsed(s)
    ensures DataZone(s, z) <==> z in s.owner || z in s.leaked
    ensures !(z in s.owner && z in s.leaked) && s.first <= s.nzones
  {
    if z in s.owner { assert OwnerOk(s, z); }
    if DataZone(s, z) { assert BitOf(s, z); }
  }

  lemma CountBoth(s: Fs, all: set<nat>)
    requires forall z :: z in all <==> z in s.owner || z in s.leaked
    requires forall z | z in s.owner :: z !in s.leaked
    ensures |all| == |s.owner| + |s.leaked|
  {
    assert all == s.owner.Keys + s.leaked && s.owner.Keys !! s.leaked;
  }

  /** The numbers from `a` up to `b`. */
  ghost function Range(a: nat, b: nat): (r: set<nat>)
    requires a <= b
    ensures |r| == b - a && forall z: nat :: z in r <==> a <= z < b
    decreases b - a
  {
    if a == b then {} else {a} + Range(a + 1, b)
  }
}
