/** Files as flat byte sequences, read off the block tree. */
module FsFiles {
  import opened FsState
  import opened FsSteps

  const MAX_BLOCKS := 7 + 512 + 512 * 512
  const LIMIT := MAX_BLOCKS * BLOCK_SIZE

  /** The tree position of the `b`-th block of a file. */
  function PosOf(b: nat): (p: Pos)
    requires b < MAX_BLOCKS
    ensures ValidPos(p) && !IsIndex(p)
  {
    if b < 7 then Zone(b)
    else if b < 7 + 512 then Ind(b - 7)
    else Leaf((b - 7 - 512) / 512, (b - 7 - 512) % 512)
  }

  lemma PosOfInjective(a: nat, b: nat)
    requires a < MAX_BLOCKS && b < MAX_BLOCKS && PosOf(a) == PosOf(b)
    ensures a == b
  {
  }

  /** Byte `p` of file `n`: a missing block reads as zeros. */
  function ByteAt(s: Fs, n: nat, p: nat): Byte
    requires Shape(s) && n < |s.tree| && s.tree[n] && p < LIMIT
  {
    var z := At(s, Place(n, PosOf(p / BLOCK_SIZE)));
    if 0 < z < s.nzones then s.blocks[z][p % BLOCK_SIZE] else 0
  }

  /** Entry `k` of the index block in zone `z`, low byte first; 0 if there is no such block. */
  function Pointer(s: Fs, z: nat, k: nat): nat
    requires Shape(s) && k < 512
  {
    if 0 < z < s.nzones then s.blocks[z][2 * k] as int + 256 * (s.blocks[z][2 * k + 1] as int) else 0
  }

  /** The way to a byte: 7 zone numbers in the inode, 512 in the block that its 8th names, and 512 times 512 behind the 9th. */
  lemma ByteLayout(s: Fs, n: nat, p: nat)
    requires Shape(s) && n < |s.tree| && s.tree[n] && p < LIMIT
    ensures var b := p / 1024;
            var z := if b < 7 then s.zone[n][b]
                     else if b < 519 then Pointer(s, s.zone[n][7], b - 7)
                     else Pointer(s, Pointer(s, s.zone[n][8], (b - 519) / 512), (b - 519) % 512);
            ByteAt(s, n, p) == if 0 < z < s.nzones then s.blocks[z][p % 1024] else 0
  {
    var b := p / 1024;
    if b < 7 {
    } else if b < 519 {
      assert At(s, Place(n, Ind(b - 7))) == Pointer(s, At(s, Place(n, Zone(7))), b - 7);
    } else {
      var k, l := (b - 519) / 512, (b - 519) % 512;
      assert At(s, Place(n, Mid(k))) == Pointer(s, At(s, Place(n, Zone(8))), k);
      assert At(s, Place(n, Leaf(k, l))) == Pointer(s, At(s, Place(n, Mid(k))), l);
    }
  }

  /** Where the block with byte `p` of file `n` is kept. */
  function PlaceOf(n: nat, p: nat): Place
    requires p < LIMIT
  {
    Place(n, PosOf(p / BLOCK_SIZE))
  }

  /** What a program reads there: where an index block cannot be read the file seems to have a hole. */
  function SeenAt(s: Fs, n: nat, p: nat): Byte
    requires Shape(s) && n < |s.tree| && s.tree[n] && p < LIMIT
  {
    if Hidden(s, PlaceOf(n, p)) then 0 else ByteAt(s, n, p)
  }

  /** The byte cannot be written, since its block or an index block above it exists and cannot be read. */
  predicate Blocked(s: Fs, n: nat, p: nat)
    requires Shape(s) && n < |s.tree| && s.tree[n]
  {
    p < LIMIT && (Hidden(s, PlaceOf(n, p)) || Broken(s, PlaceOf(n, p)))
  }

  lemma ReadableByte(s: Fs, n: nat, p: nat)
    requires TreeInv(s) && s.dead == {} && n < |s.tree| && s.tree[n] && p < LIMIT && Readable(s, n)
    ensures SeenAt(s, n, p) == ByteAt(s, n, p) && !Broken(s, PlaceOf(n, p)) && !Blocked(s, n, p)
  {
    ReadableAt(s, PlaceOf(n, p));
  }

  /** A file as the sequence of all bytes it can hold. */
  ghost function FileOf(s: Fs, n: nat): (f: seq<Byte>)
    requires Shape(s) && n < |s.tree| && s.tree[n]
    ensures |f| == LIMIT
  {
    seq(LIMIT, p requires 0 <= p < LIMIT => ByteAt(s, n, p))
  }

  /** Every file has the same bytes in both states. */
  ghost predicate FilesSame(s: Fs, s': Fs)
    requires Shape(s) && Shape(s')
  {
    && s'.tree == s.tree
    && forall n, p | 0 <= n < |s.tree| && s.tree[n] && 0 <= p < LIMIT :: ByteAt(s', n, p) == ByteAt(s, n, p)
  }

  lemma FilesSameTrans(s: Fs, s1: Fs, s2: Fs)
    requires Shape(s) && Shape(s1) && Shape(s2) && FilesSame(s, s1) && FilesSame(s1, s2)
    ensures FilesSame(s, s2)
  {
  }

  /** Every other place as before, `at` freshly given the cleared zone `z`: no file changes. */
  lemma GrownFiles(s: Fs, s': Fs, at: Place, z: nat)
    requires TreeInv(s) && Shape(s') && s'.tree == s.tree && s'.nzones == s.nzones && s.dead == {}
    requires IsPlace(s, at) && At(s, at) == 0 && 0 < z < s.nzones && s'.blocks[z] == ZeroBlock()
    requires forall q | IsPlace(s, q) :: IsPlace(s', q) && At(s', q) == if q == at then z else At(s, q)
    requires forall y | y in s.owner && !IsIndex(s.owner[y].pos) :: y < s.nzones && s'.blocks[y] == s.blocks[y]
    ensures FilesSame(s, s')
  {
    forall n, p | 0 <= n < |s.tree| && s.tree[n] && 0 <= p < LIMIT ensures ByteAt(s', n, p) == ByteAt(s, n, p) {
      assert PlaceOk(s, Place(n, PosOf(p / BLOCK_SIZE)));
    }
  }

  lemma SameFiles(s: Fs, s': Fs)
    requires TreeInv(s) && Shape(s') && s'.tree == s.tree && s'.nzones == s.nzones && s.dead == {} && SameAt(s, s')
    requires forall y | y in s.owner && !IsIndex(s.owner[y].pos) :: y < s.nzones && s'.blocks[y] == s.blocks[y]
    ensures FilesSame(s, s')
  {
    forall n, p | 0 <= n < |s.tree| && s.tree[n] && 0 <= p < LIMIT ensures ByteAt(s', n, p) == ByteAt(s, n, p) {
      assert PlaceOk(s, Place(n, PosOf(p / BLOCK_SIZE)));
    }
  }

  /** Overwriting the block at one place changes exactly the bytes of that block of that file. */
  lemma WrittenBytes(s: Fs, n: nat, b: nat, data: Block)
    requires TreeInv(s) && s.dead == {} && n < |s.tree| && s.tree[n] && b < MAX_BLOCKS
    requires At(s, Place(n, PosOf(b))) != 0
    ensures At(s, Place(n, PosOf(b))) < s.nzones
    ensures var s' := s.(blocks := s.blocks[At(s, Place(n, PosOf(b))) := data]);
            && TreeInv(s') && SameAt(s, s')
            && forall m, p | 0 <= m < |s.tree| && s.tree[m] && 0 <= p < LIMIT ::
                 ByteAt(s', m, p) == if m == n && p / BLOCK_SIZE == b then data[p % BLOCK_SIZE] else ByteAt(s, m, p)
  {
    var pl := Place(n, PosOf(b));
    var z := At(s, pl);
    assert PlaceOk(s, pl) && OwnerOk(s, z);
    DataBlockInv(s, z, data);
    var s' := s.(blocks := s.blocks[z := data]);
    forall m, p | 0 <= m < |s.tree| && s.tree[m] && 0 <= p < LIMIT
      ensures ByteAt(s', m, p) == if m == n && p / BLOCK_SIZE == b then data[p % BLOCK_SIZE] else ByteAt(s, m, p)
    {
      var q := Place(m, PosOf(p / BLOCK_SIZE));
      assert PlaceOk(s, q) && At(s', q) == At(s, q);
      if m == n && PosOf(p / BLOCK_SIZE) == PosOf(b) { PosOfInjective(p / BLOCK_SIZE, b); }
    }
  }

  /** The trees may have gained zones, which can be read, and lost none. */
  ghost predicate Kept(s: Fs, s': Fs) {
    && Shape(s) && Shape(s')
    && s'.tree == s.tree && s'.first == s.first && s'.nzones == s.nzones && |s'.bits| == |s.bits|
    && s'.leaked == s.leaked && s'.dead == s.dead
    && s.owner.Keys <= s'.owner.Keys && s'.bad == s.bad - (s'.owner.Keys - s.owner.Keys)
    && (forall pl | IsPlace(s, pl) && At(s, pl) != 0 :: IsPlace(s', pl) && At(s', pl) == At(s, pl))
  }

  lemma KeptTrans(s: Fs, s1: Fs, s2: Fs)
    requires Kept(s, s1) && Kept(s1, s2)
    ensures Kept(s, s2)
  {
    forall pl | IsPlace(s, pl) && At(s, pl) != 0 ensures IsPlace(s2, pl) && At(s2, pl) == At(s, pl) {
      assert At(s1, pl) == At(s, pl);
    }
    hide Shape, At;
    assert s2.bad == s.bad - (s2.owner.Keys - s.owner.Keys);
  }

  /** Growth does not change what can be reached and read. */
  lemma {:induction false} HiddenKept(s: Fs, s': Fs, pl: Place)
    requires TreeInv(s) && TreeInv(s') && s.dead == {} && Kept(s, s') && IsPlace(s, pl)
    ensures IsPlace(s', pl) && (Hidden(s', pl) <==> Hidden(s, pl)) && (Broken(s', pl) <==> Broken(s, pl))
    decreases if pl.pos.Leaf? then 2 else if pl.pos.Zone? then 0 else 1
  {
    BadKept(s, s', pl);
    if !pl.pos.Zone? {
      var up := Place(pl.n, Parent(pl.pos));
      HiddenKept(s, s', up);
      BadKept(s, s', up);
    }
  }

  lemma BadKept(s: Fs, s': Fs, pl: Place)
    requires TreeInv(s) && TreeInv(s') && s.dead == {} && Kept(s, s') && IsPlace(s, pl)
    ensures IsPlace(s', pl)
    ensures At(s', pl) != 0 && At(s', pl) in s'.bad <==> At(s, pl) != 0 && At(s, pl) in s.bad
  {
    assert PlaceOk(s, pl) && PlaceOk(s', pl);
    var z := At(s', pl);
    if z != 0 && z in s.owner { OwnerKept(s, s', z); }
  }

  lemma OwnerKept(s: Fs, s': Fs, z: nat)
    requires TreeInv(s) && TreeInv(s') && s.dead == {} && Kept(s, s') && z in s.owner
    ensures z in s'.owner && s'.owner[z] == s.owner[z] && IsPlace(s, s.owner[z]) && At(s, s.owner[z]) == z
  {
    assert OwnerOk(s, z);
    assert At(s', s.owner[z]) == z && PlaceOk(s', s.owner[z]);
  }

  lemma ReadableKept(s: Fs, s': Fs, n: nat)
    requires TreeInv(s) && TreeInv(s') && s.dead == {} && Kept(s, s') && Readable(s, n)
    ensures Readable(s', n)
  {
    forall z | z in s'.owner && s'.owner[z].n == n ensures z !in s'.bad {
      if z in s.owner { OwnerKept(s, s', z); }
    }
  }

  /** A full disk stays full. */
  lemma FullKept(s: Fs, s': Fs)
    requires TreeInv(s) && TreeInv(s') && Kept(s, s') && AllUsed(s)
    ensures AllUsed(s')
  {
    forall z | DataZone(s', z) ensures BitOf(s', z) {
      assert DataZone(s, z) && BitOf(s, z);
    }
  }

  /** What allocation on behalf of a file may do: fill in missing blocks with zeros, and nothing else. */
  ghost predicate Grown(s: Fs, s': Fs) {
    Kept(s, s') && FilesSame(s, s')
  }

  lemma GrownTrans(s: Fs, s1: Fs, s2: Fs)
    requires Grown(s, s1) && Grown(s1, s2)
    ensures Grown(s, s2)
  {
    FilesSameTrans(s, s1, s2);
    KeptTrans(s, s1, s2);
  }

  /** Allocating a cleared zone and attaching it is growth. */
  lemma AttachGrown(s: Fs, pl: Place, z: nat)
    requires TreeInv(s) && s.dead == {} && DataZone(s, z) && !BitOf(s, z) && z !in s.leaked
    requires IsPlace(s, pl) && At(s, pl) == 0
    requires !pl.pos.Zone? ==> At(s, Place(pl.n, Parent(pl.pos))) != 0
    ensures TreeInv(Alloc(s, z)) && CanAttach(Alloc(s, z), pl, z)
    ensures TreeInv(Attach(Alloc(s, z), pl, z)) && Grown(s, Attach(Alloc(s, z), pl, z))
    ensures forall q | IsPlace(s, q) :: IsPlace(Attach(Alloc(s, z), pl, z), q)
              && At(Attach(Alloc(s, z), pl, z), q) == if q == pl then z else At(s, q)
  {
    assert Shape(s);
    hide At, TreeInv, PlaceOk, FilesSame, Attach, Alloc, CanAttach;
    AttachReady(s, pl, z);
    var s2 := Attach(Alloc(s, z), pl, z);
    AttachPlaces(s, pl, z, s2);
    AttachBlocks(s, pl, z, s2);
    AttachFields(s, pl, z, s2);
    GrownFiles(s, s2, pl, z);
  }

  lemma AttachReady(s: Fs, pl: Place, z: nat)
    requires TreeInv(s) && s.dead == {} && DataZone(s, z) && !BitOf(s, z) && z !in s.leaked
    requires IsPlace(s, pl) && At(s, pl) == 0
    requires !pl.pos.Zone? ==> At(s, Place(pl.n, Parent(pl.pos))) != 0
    ensures TreeInv(Alloc(s, z)) && CanAttach(Alloc(s, z), pl, z) && z !in s.owner
  {
    AllocInv(s, z);
  }

  lemma AttachPlaces(s: Fs, pl: Place, z: nat, s2: Fs)
    requires TreeInv(s) && s.dead == {} && DataZone(s, z) && !BitOf(s, z)
    requires CanAttach(Alloc(s, z), pl, z) && s2 == Attach(Alloc(s, z), pl, z)
    ensures TreeInv(s2) && Shape(s2)
    ensures forall q | IsPlace(s, q) :: IsPlace(s2, q) && At(s2, q) == if q == pl then z else At(s, q)
  {
    AllocInv(s, z);
    hide At, TreeInv;
    AttachInv(Alloc(s, z), pl, z);
  }

  lemma AttachFields(s: Fs, pl: Place, z: nat, s2: Fs)
    requires TreeInv(s) && z !in s.leaked && z !in s.owner && DataZone(s, z)
    requires CanAttach(Alloc(s, z), pl, z) && s2 == Attach(Alloc(s, z), pl, z)
    ensures && s2.tree == s.tree && s2.first == s.first && s2.nzones == s.nzones && |s2.bits| == |s.bits|
            && s2.leaked == s.leaked && s2.dead == s.dead && s2.owner == s.owner[z := pl] && s2.bad == s.bad - {z}
            && s2.owner.Keys - s.owner.Keys == {z}
  {
    hide At;
    assert s.leaked + {z} - {z} == s.leaked;
  }

  /** Attaching a zone changes no data block. */
  lemma AttachBlocks(s: Fs, pl: Place, z: nat, s2: Fs)
    requires TreeInv(s) && s.dead == {} && DataZone(s, z) && !BitOf(s, z) && z !in s.leaked
    requires IsPlace(s, pl) && At(s, pl) == 0
    requires CanAttach(Alloc(s, z), pl, z) && s2 == Attach(Alloc(s, z), pl, z)
    ensures |s2.blocks| == s.nzones && s2.blocks[z] == ZeroBlock()
            && forall y | y in s.owner && !IsIndex(s.owner[y].pos) :: y < s.nzones && s2.blocks[y] == s.blocks[y]
  {
    AllocInv(s, z);
    var s1 := Alloc(s, z);
    ParentOwned(s1, pl);
    forall y | y in s.owner && !IsIndex(s.owner[y].pos) ensures y < s.nzones && s2.blocks[y] == s.blocks[y] {
      assert OwnerOk(s, y);
    }
    if !pl.pos.Zone? {
      assert At(s1, Place(pl.n, Parent(pl.pos))) != z;
    }
  }

  // ---------- The reference: files as plain byte sequences ----------

  /** A regular file or directory: all the bytes it can hold, and its size. */
  datatype Flat = Flat(data: seq<Byte>, size: nat) | NoFile

  datatype FileOp = WriteOp(n: nat, fpos: nat, append: bool, buf: seq<Byte>) | TruncateOp(n: nat)

  function StartOf(f: Flat, op: FileOp): nat
    requires f.Flat? && op.WriteOp?
  {
    if op.append then f.size else op.fpos
  }

  predicate LegalOp(files: seq<Flat>, op: FileOp) {
    && op.n < |files| && files[op.n].Flat? && |files[op.n].data| == LIMIT
    && (op.WriteOp? ==> StartOf(files[op.n], op) + |op.buf| <= LIMIT)
  }

  /** `k` is how much of a write was done before it stopped. */
  function FlatStep(files: seq<Flat>, op: FileOp, k: nat): seq<Flat> {
    if !LegalOp(files, op) then files
    else if op.WriteOp? then
      if k > |op.buf| then files else
      var f, start := files[op.n], StartOf(files[op.n], op);
      files[op.n := Flat(f.data[..start] + op.buf[..k] + f.data[start + k..],
                         if k > 0 && start + k > f.size then start + k else f.size)]
    else
      files[op.n := Flat(seq(LIMIT, _ => 0), 0)]
  }

  function FlatRun(files: seq<Flat>, ops: seq<FileOp>, ks: seq<nat>): seq<Flat>
    requires |ops| == |ks|
    decreases |ops|
  {
    if ops == [] then files else FlatRun(FlatStep(files, ops[0], ks[0]), ops[1..], ks[1..])
  }

  /** A file that no operation of a run names comes out of it unchanged. */
  lemma {:induction false} FileUntouched(files: seq<Flat>, ops: seq<FileOp>, ks: seq<nat>, n: nat)
    requires |ops| == |ks| && n < |files| && forall i | 0 <= i < |ops| :: ops[i].n != n
    ensures |FlatRun(files, ops, ks)| == |files| && FlatRun(files, ops, ks)[n] == files[n]
    decreases |ops|
  {
    if ops != [] {
      FileUntouched(FlatStep(files, ops[0], ks[0]), ops[1..], ks[1..], n);
    }
  }

  /** The bytes that a write leaves: its own first `k`, and the old ones elsewhere; the file ends behind them, or where it did. */
  lemma WrittenByte(files: seq<Flat>, op: FileOp, k: nat, n: nat, p: nat)
    requires LegalOp(files, op) && op.WriteOp? && k <= |op.buf| && n < |files| && files[n].Flat? && |files[n].data| == LIMIT
    requires p < LIMIT
    ensures var t, start := FlatStep(files, op, k), if op.append then files[op.n].size else op.fpos;
            && |t| == |files| && t[n].Flat? && |t[n].data| == LIMIT
            && t[n].data[p] == (if n == op.n && start <= p < start + k then op.buf[p - start] else files[n].data[p])
            && (n != op.n || k == 0 ==> t[n].size == files[n].size)
            && (n == op.n && k > 0 ==> t[n].size >= start + k && t[n].size >= files[n].size
                                       && (t[n].size == start + k || t[n].size == files[n].size))
  {
  }

  lemma TruncatedByte(files: seq<Flat>, op: FileOp, k: nat, p: nat)
    requires LegalOp(files, op) && op.TruncateOp? && p < LIMIT
    ensures var t := FlatStep(files, op, k);
            && |t| == |files| && t[op.n].Flat? && t[op.n].size == 0 && |t[op.n].data| == LIMIT && t[op.n].data[p] == 0
            && forall m | 0 <= m < |files| && m != op.n :: t[m] == files[m]
  {
  }

  /** What was written last is read: after a write, and any run on other files, byte `p` is what was written there. */
  lemma LastWritten(files: seq<Flat>, op: FileOp, k: nat, ops: seq<FileOp>, ks: seq<nat>, p: nat)
    requires LegalOp(files, op) && op.WriteOp? && k <= |op.buf| && |ops| == |ks|
    requires forall i | 0 <= i < |ops| :: ops[i].n != op.n
    requires var start := if op.append then files[op.n].size else op.fpos; start <= p < start + k
    ensures var u := FlatRun(FlatStep(files, op, k), ops, ks);
            && |u| == |files| && u[op.n].Flat? && |u[op.n].data| == LIMIT && p < LIMIT
            && u[op.n].data[p] == op.buf[p - if op.append then files[op.n].size else op.fpos]
  {
    WrittenByte(files, op, k, op.n, p);
    FileUntouched(FlatStep(files, op, k), ops, ks, op.n);
  }
}
