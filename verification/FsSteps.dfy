/** The elementary changes to block trees, each shown to keep the tree invariant. */
module FsSteps {
  import opened FsState

  // ---------- Allocation ----------

  /** The zone is taken and cleared in the cache. */
  ghost function Alloc(s: Fs, z: nat): Fs
    requires Shape(s) && DataZone(s, z)
  {
    s.(bits := s.bits[z - s.first + 1 := true], blocks := s.blocks[z := ZeroBlock()], leaked := s.leaked + {z},
       bad := s.bad - {z})
  }

  /** Two states store the same zone numbers everywhere. */
  ghost predicate SameAt(s: Fs, s': Fs)
    requires Shape(s) && Shape(s')
  {
    forall pl | IsPlace(s, pl) :: IsPlace(s', pl) && At(s', pl) == At(s, pl)
  }

  /** Changing a block that no place uses as an index block changes no stored zone number. */
  lemma UnindexedBlock(s: Fs, s': Fs, z: nat)
    requires TreeInv(s) && s.dead == {} && Shape(s')
    requires s'.zone == s.zone && s'.tree == s.tree && s'.nzones == s.nzones && s'.first == s.first
    requires forall y | 0 <= y < s.nzones && y != z :: s'.blocks[y] == s.blocks[y]
    requires z in s.owner ==> !IsIndex(s.owner[z].pos)
    ensures SameAt(s, s')
  {
    forall pl | IsPlace(s, pl) ensures At(s', pl) == At(s, pl) {
      UnindexedBlockAt(s, s', z, pl);
    }
  }

  lemma {:induction false} UnindexedBlockAt(s: Fs, s': Fs, z: nat, pl: Place)
    requires TreeInv(s) && s.dead == {} && Shape(s') && IsPlace(s, pl)
    requires s'.zone == s.zone && s'.tree == s.tree && s'.nzones == s.nzones && s'.first == s.first
    requires forall y | 0 <= y < s.nzones && y != z :: s'.blocks[y] == s.blocks[y]
    requires z in s.owner ==> !IsIndex(s.owner[z].pos)
    ensures At(s', pl) == At(s, pl)
    decreases if pl.pos.Leaf? then 2 else if pl.pos.Zone? then 0 else 1
  {
    if !pl.pos.Zone? {
      var up := Place(pl.n, Parent(pl.pos));
      UnindexedBlockAt(s, s', z, up);
      assert PlaceOk(s, up);
    }
  }

  lemma AllocInv(s: Fs, z: nat)
    requires TreeInv(s) && s.dead == {} && DataZone(s, z) && !BitOf(s, z)
    ensures TreeInv(Alloc(s, z)) && SameAt(s, Alloc(s, z)) && z !in s.owner
  {
    var s' := Alloc(s, z);
    assert Shape(s') && z !in s.owner && z !in s.leaked;
    UnindexedBlock(s, s', z);
    forall pl | IsPlace(s', pl) ensures PlaceOk(s', pl) {
      assert PlaceOk(s, pl);
    }
    forall y | y in s'.owner ensures OwnerOk(s', y) {
      assert OwnerOk(s, y);
    }
    forall y | DataZone(s', y) ensures BitOf(s', y) <==> y in s'.owner || y in s'.leaked {
      assert y != z ==> BitOf(s', y) == BitOf(s, y);
    }
  }

  // ---------- Storing a zone number ----------

  /** Storing `z` at a place whose index block exists. */
  function Store(s: Fs, pl: Place, z: nat): Fs
    requires Shape(s) && IsPlace(s, pl) && z < 0x1_0000
    requires !pl.pos.Zone? ==> 0 < At(s, Place(pl.n, Parent(pl.pos))) < s.nzones
  {
    if pl.pos.Zone? then
      var zones: seq<nat> := s.zone[pl.n][pl.pos.i := z];
      s.(zone := s.zone[pl.n := zones])
    else
      var p := At(s, Place(pl.n, Parent(pl.pos)));
      s.(blocks := s.blocks[p := SetWord16(s.blocks[p], Slot(pl.pos), z)])
  }

  /** The place is empty, and the index block above it exists. */
  ghost predicate CanAttach(s: Fs, pl: Place, z: nat) {
    && TreeInv(s) && s.dead == {} && IsPlace(s, pl) && At(s, pl) == 0
    && z in s.leaked && s.blocks[z] == ZeroBlock()
    && (!pl.pos.Zone? ==> At(s, Place(pl.n, Parent(pl.pos))) != 0)
  }

  /** A cleared zone that belongs to nobody becomes the zone of `pl`. */
  ghost function Attach(s: Fs, pl: Place, z: nat): Fs
    requires CanAttach(s, pl, z)
  {
    ParentOwned(s, pl);
    Store(s, pl, z).(owner := s.owner[z := pl], leaked := s.leaked - {z})
  }

  lemma ParentOwned(s: Fs, pl: Place)
    requires TreeInv(s) && s.dead == {} && IsPlace(s, pl)
    ensures !pl.pos.Zone? ==>
              var up := Place(pl.n, Parent(pl.pos));
              IsPlace(s, up) && (At(s, up) != 0 ==> DataZone(s, At(s, up)) && At(s, up) in s.owner && s.owner[At(s, up)] == up)
  {
    if !pl.pos.Zone? {
      assert PlaceOk(s, Place(pl.n, Parent(pl.pos)));
      if At(s, Place(pl.n, Parent(pl.pos))) != 0 { assert OwnerOk(s, At(s, Place(pl.n, Parent(pl.pos)))); }
    }
  }

  /** The numbers that attaching stores. */
  lemma AttachWords(s: Fs, pl: Place, z: nat, block: nat)
    requires CanAttach(s, pl, z)
    requires !pl.pos.Zone? ==> block == At(s, Place(pl.n, Parent(pl.pos)))
    ensures z < 0x1_0000 && |s.zone[pl.n]| == 9 && (!pl.pos.Zone? ==> block < |s.blocks|)
    ensures Attach(s, pl, z) ==
              if pl.pos.Zone? then
                var zones: seq<nat> := s.zone[pl.n][pl.pos.i := z];
                s.(zone := s.zone[pl.n := zones], owner := s.owner[z := pl], leaked := s.leaked - {z})
              else
                s.(blocks := s.blocks[block := SetWord16(s.blocks[block], Slot(pl.pos), z)],
                   owner := s.owner[z := pl], leaked := s.leaked - {z})
  {
    ParentOwned(s, pl);
  }

  /** After attaching a cleared zone every other place stores what it stored. */
  lemma {:induction false} AttachAt(s: Fs, pl: Place, z: nat, q: Place)
    requires CanAttach(s, pl, z) && IsPlace(s, q)
    ensures Shape(Attach(s, pl, z)) && IsPlace(Attach(s, pl, z), q)
    ensures At(Attach(s, pl, z), q) == if q == pl then z else At(s, q)
    decreases if q.pos.Leaf? then 2 else if q.pos.Zone? then 0 else 1
  {
    var s' := Attach(s, pl, z);
    ParentOwned(s, pl);
    assert z in s.owner ==> OwnerOk(s, z);
    if !q.pos.Zone? {
      var up := Place(q.n, Parent(q.pos));
      AttachAt(s, pl, z, up);
      ParentOwned(s, q);
      if up == pl {
        assert At(s', up) == z && s'.blocks[z] == ZeroBlock();
      } else if !pl.pos.Zone? && At(s, up) == At(s, Place(pl.n, Parent(pl.pos))) && At(s, up) != 0 {
        assert up == Place(pl.n, Parent(pl.pos));
        SetWord16Reads(s.blocks[At(s, up)], Slot(pl.pos), z, Slot(q.pos));
        assert Slot(q.pos) == Slot(pl.pos) ==> q == pl;
      }
    }
  }

  lemma AttachInv(s: Fs, pl: Place, z: nat)
    requires CanAttach(s, pl, z)
    ensures TreeInv(Attach(s, pl, z)) && At(Attach(s, pl, z), pl) == z
    ensures forall q | IsPlace(s, q) && q != pl :: IsPlace(Attach(s, pl, z), q) && At(Attach(s, pl, z), q) == At(s, q)
  {
    var s' := Attach(s, pl, z);
    AttachAt(s, pl, z, pl);
    assert z in s.owner ==> OwnerOk(s, z);
    forall q | IsPlace(s, q) ensures IsPlace(s', q) && At(s', q) == if q == pl then z else At(s, q) {
      AttachAt(s, pl, z, q);
    }
    GainZone(s, s', pl, z);
  }

  /** An unowned zone stored at an empty place, with everything else as it was, keeps the invariant. */
  lemma GainZone(s: Fs, s': Fs, pl: Place, z: nat)
    requires TreeInv(s) && s.dead == {} && IsPlace(s, pl) && At(s, pl) == 0 && z in s.leaked && z !in s.owner
    requires Shape(s') && s'.tree == s.tree && |s'.zone| == |s.zone| && s'.bits == s.bits
    requires s'.first == s.first && s'.nzones == s.nzones && s'.dead == {}
    requires s'.owner == s.owner[z := pl] && s'.leaked == s.leaked - {z}
    requires forall q | IsPlace(s, q) :: IsPlace(s', q) && At(s', q) == if q == pl then z else At(s, q)
    ensures TreeInv(s')
  {
    hide At;
    forall q | IsPlace(s', q) ensures PlaceOk(s', q) {
      assert IsPlace(s, q) && PlaceOk(s, q);
    }
    forall y | y in s'.owner ensures OwnerOk(s', y) {
      if y != z { assert OwnerOk(s, y); }
    }
    forall y | DataZone(s', y) ensures BitOf(s', y) <==> y in s'.owner || y in s'.leaked {
      assert BitOf(s, y) == BitOf(s', y);
    }
  }

  // ---------- Freeing ----------

  /** The zone at `pl` is freed; its number stays stored for the time being. */
  ghost function FreeAt(s: Fs, pl: Place): Fs
    requires Shape(s) && IsPlace(s, pl) && DataZone(s, At(s, pl))
  {
    var z := At(s, pl);
    s.(bits := s.bits[z - s.first + 1 := false], owner := s.owner - {z}, dead := s.dead + {pl})
  }

  lemma SameAtAll(s: Fs, s': Fs)
    requires Shape(s) && Shape(s') && s'.zone == s.zone && s'.tree == s.tree && s'.blocks == s.blocks
    requires s'.nzones == s.nzones
    ensures SameAt(s, s')
  {
    forall pl | IsPlace(s, pl) ensures At(s', pl) == At(s, pl) {
      SameAtOne(s, s', pl);
    }
  }

  lemma {:induction false} SameAtOne(s: Fs, s': Fs, pl: Place)
    requires Shape(s) && Shape(s') && s'.zone == s.zone && s'.tree == s.tree && s'.blocks == s.blocks
    requires s'.nzones == s.nzones && IsPlace(s, pl)
    ensures IsPlace(s', pl) && At(s', pl) == At(s, pl)
    decreases if pl.pos.Leaf? then 2 else if pl.pos.Zone? then 0 else 1
  {
    if !pl.pos.Zone? { SameAtOne(s, s', Place(pl.n, Parent(pl.pos))); }
  }

  lemma FreeAtInv(s: Fs, pl: Place)
    requires TreeInv(s) && IsPlace(s, pl) && pl !in s.dead && At(s, pl) != 0
    ensures DataZone(s, At(s, pl)) && BitOf(s, At(s, pl)) && At(s, pl) in s.owner && s.owner[At(s, pl)] == pl
    ensures TreeInv(FreeAt(s, pl)) && SameAt(s, FreeAt(s, pl))
  {
    assert PlaceOk(s, pl) && OwnerOk(s, At(s, pl));
    var s' := FreeAt(s, pl);
    assert BitOf(s, At(s, pl));
    hide At, TreeInv;
    SameAtAll(s, s');
    LoseZone(s, s', pl, At(s, pl));
  }

  /** Forgetting one place and its zone keeps the invariant, whatever stays stored there. */
  lemma LoseZone(s: Fs, s': Fs, pl: Place, z: nat)
    requires TreeInv(s) && IsPlace(s, pl) && pl !in s.dead && At(s, pl) == z != 0
    requires Shape(s') && s'.zone == s.zone && s'.tree == s.tree && SameAt(s, s')
    requires s'.first == s.first && s'.nzones == s.nzones && |s'.bits| == |s.bits|
    requires z in s.owner && s.owner[z] == pl && DataZone(s, z)
    requires s'.owner == s.owner - {z} && s'.leaked == s.leaked && s'.dead == s.dead + {pl}
    requires s'.bits == s.bits[z - s.first + 1 := false]
    ensures TreeInv(s')
  {
    assert OwnerOk(s, z);
    forall q | IsPlace(s', q) ensures PlaceOk(s', q) {
      assert IsPlace(s, q) && PlaceOk(s, q);
    }
    forall y | y in s'.owner ensures OwnerOk(s', y) {
      assert OwnerOk(s, y);
    }
    hide At;
    forall y | DataZone(s', y) ensures BitOf(s', y) <==> y in s'.owner || y in s'.leaked {
      assert y != z ==> BitOf(s', y) == BitOf(s, y);
    }
  }

  /** Zones whose places can no longer be read are given up: allocated, but in no tree. */
  ghost function Leak(s: Fs, zs: set<nat>): Fs {
    s.(owner := s.owner - zs, leaked := s.leaked + zs,
       dead := s.dead + (set z | z in zs && z in s.owner :: s.owner[z]))
  }

  lemma LeakInv(s: Fs, zs: set<nat>)
    requires TreeInv(s) && zs <= s.owner.Keys
    ensures TreeInv(Leak(s, zs)) && SameAt(s, Leak(s, zs))
  {
    var s' := Leak(s, zs);
    SameAtAll(s, s');
    OwnerInjective(s);
    forall q | IsPlace(s', q) ensures PlaceOk(s', q) {
      assert IsPlace(s, q) && PlaceOk(s, q);
    }
    forall y | y in s'.owner ensures OwnerOk(s', y) {
      assert OwnerOk(s, y);
    }
    forall y | y in s'.leaked ensures DataZone(s', y) {
      if y in zs { assert OwnerOk(s, y); }
    }
    forall y | DataZone(s', y) ensures BitOf(s', y) <==> y in s'.owner || y in s'.leaked {
      assert BitOf(s', y) == BitOf(s, y);
    }
  }

  /** Setting bits that stand for no zone changes nothing. */
  lemma PaddingInv(s: Fs, s': Fs)
    requires TreeInv(s) && |s'.bits| == |s.bits| && s' == s.(bits := s'.bits) && s'.bits[0]
    requires forall i | 1 <= i <= s.nzones - s.first :: s'.bits[i] == s.bits[i]
    ensures TreeInv(s') && SameAt(s, s')
  {
    SameAtAll(s, s');
    forall q | IsPlace(s', q) ensures PlaceOk(s', q) {
      assert IsPlace(s, q) && PlaceOk(s, q);
    }
    forall y | y in s'.owner ensures OwnerOk(s', y) {
      assert OwnerOk(s, y);
    }
    forall y | DataZone(s', y) ensures BitOf(s', y) <==> y in s'.owner || y in s'.leaked {
      assert BitOf(s', y) == BitOf(s, y);
    }
  }

  /** Writing into a block that is not an index block. */
  lemma DataBlockInv(s: Fs, z: nat, b: Block)
    requires TreeInv(s) && s.dead == {} && z < s.nzones
    requires z in s.owner ==> !IsIndex(s.owner[z].pos)
    ensures TreeInv(s.(blocks := s.blocks[z := b])) && SameAt(s, s.(blocks := s.blocks[z := b]))
  {
    var s' := s.(blocks := s.blocks[z := b]);
    assert Shape(s');
    UnindexedBlock(s, s', z);
    forall q | IsPlace(s', q) ensures PlaceOk(s', q) {
      assert IsPlace(s, q) && PlaceOk(s, q);
    }
    forall y | y in s'.owner ensures OwnerOk(s', y) {
      assert OwnerOk(s, y);
    }
    forall y | DataZone(s', y) ensures BitOf(s', y) <==> y in s'.owner || y in s'.leaked {
      assert BitOf(s', y) == BitOf(s, y);
    }
  }

  /** Clearing a direct zone number of an inode whose zone has been freed. */
  function ClearDirect(s: Fs, n: nat, i: nat): Fs
    requires Shape(s) && n < |s.zone| && i < 7
  {
    var zones: seq<nat> := s.zone[n][i := 0];
    s.(zone := s.zone[n := zones])
  }

  lemma ClearDirectInv(s: Fs, n: nat, i: nat)
    requires TreeInv(s) && n < |s.zone| && i < 7 && Place(n, Zone(i)) in s.dead
    ensures TreeInv(ClearDirect(s, n, i))
    ensures forall q | IsPlace(s, q) && q != Place(n, Zone(i)) ::
              IsPlace(ClearDirect(s, n, i), q) && At(ClearDirect(s, n, i), q) == At(s, q)
  {
    var s' := ClearDirect(s, n, i);
    forall q | IsPlace(s, q) && q != Place(n, Zone(i)) ensures At(s', q) == At(s, q) {
      ClearDirectAt(s, n, i, q);
    }
    forall q | IsPlace(s', q) ensures PlaceOk(s', q) {
      assert IsPlace(s, q) && PlaceOk(s, q);
    }
    forall y | y in s'.owner ensures OwnerOk(s', y) {
      assert OwnerOk(s, y);
    }
    forall y | DataZone(s', y) ensures BitOf(s', y) <==> y in s'.owner || y in s'.leaked {
      assert BitOf(s', y) == BitOf(s, y);
    }
  }

  lemma {:induction false} ClearDirectAt(s: Fs, n: nat, i: nat, q: Place)
    requires Shape(s) && n < |s.zone| && i < 7 && IsPlace(s, q) && q != Place(n, Zone(i))
    ensures At(ClearDirect(s, n, i), q) == At(s, q)
    decreases if q.pos.Leaf? then 2 else if q.pos.Zone? then 0 else 1
  {
    if !q.pos.Zone? { ClearDirectAt(s, n, i, Place(q.n, Parent(q.pos))); }
  }

  /** The last step of truncation: the inode forgets its zones. */
  function Forget(s: Fs, n: nat): Fs
    requires Shape(s) && n < |s.zone|
  {
    s.(zone := s.zone[n := seq(9, _ => 0)], dead := {})
  }

  lemma ForgetInv(s: Fs, n: nat)
    requires TreeInv(s) && n < |s.zone| && s.tree[n]
    requires forall z | z in s.owner :: s.owner[z].n != n
    requires forall pl | pl in s.dead :: pl.n == n
    ensures TreeInv(Forget(s, n))
    ensures forall p | ValidPos(p) :: At(Forget(s, n), Place(n, p)) == 0
    ensures forall q | IsPlace(s, q) && q.n != n :: IsPlace(Forget(s, n), q) && At(Forget(s, n), q) == At(s, q)
  {
    var s' := Forget(s, n);
    forall q | IsPlace(s, q) ensures At(s', q) == if q.n == n then 0 else At(s, q) {
      ForgetAt(s, n, q);
    }
    forall p | ValidPos(p) ensures At(s', Place(n, p)) == 0 {
      ForgetAt(s, n, Place(n, p));
    }
    hide At;
    forall q | IsPlace(s', q) ensures PlaceOk(s', q) {
      assert IsPlace(s, q) && PlaceOk(s, q);
    }
    forall y | y in s'.owner ensures OwnerOk(s', y) {
      assert OwnerOk(s, y);
    }
    forall y | DataZone(s', y) ensures BitOf(s', y) <==> y in s'.owner || y in s'.leaked {
      assert BitOf(s', y) == BitOf(s, y);
    }
  }

  lemma {:induction false} ForgetAt(s: Fs, n: nat, q: Place)
    requires Shape(s) && n < |s.zone| && IsPlace(s, q)
    ensures IsPlace(Forget(s, n), q) && At(Forget(s, n), q) == if q.n == n then 0 else At(s, q)
    decreases if q.pos.Leaf? then 2 else if q.pos.Zone? then 0 else 1
  {
    if !q.pos.Zone? { ForgetAt(s, n, Place(q.n, Parent(q.pos))); }
  }
}
