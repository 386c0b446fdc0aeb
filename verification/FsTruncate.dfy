/** What truncation has done to the block trees while it is under way, and when it is finished. */
module FsTruncate {
  import opened FsState
  import opened FsSteps
  import opened FsFiles

  function Child(top: Pos, l: nat): Pos
    requires IsIndex(top)
  {
    match top
    case Zone(i) => if i == 7 then Ind(l) else Mid(l)
    case Mid(k) => Leaf(k, l)
    case _ => top
  }

  /** `p` hangs below the index position `top`. */
  predicate Below(top: Pos, p: Pos) {
    !p.Zone? && (Parent(p) == top || (p.Leaf? && top == Zone(8)))
  }

  ghost predicate SameConsts(s0: Fs, s: Fs) {
    && Shape(s0) && Shape(s)
    && s.tree == s0.tree && s.first == s0.first && s.nzones == s0.nzones && |s.bits| == |s0.bits|
    && |s.zone| == |s0.zone| && s.blocks == s0.blocks && s.bad == s0.bad
  }

  /** The zones of inode `n`. */
  ghost function ZonesOf(s: Fs, n: nat): set<nat> {
    set z | z in s.owner && s.owner[z].n == n
  }

  /** The zones of inode `n` that truncation cannot find, because an index block above them cannot be read. */
  ghost function LostZones(s: Fs, n: nat): set<nat> {
    set z | z in s.owner && s.owner[z].n == n && HiddenZone(s, z)
  }

  ghost predicate HiddenZone(s: Fs, z: nat)
    requires z in s.owner
  {
    Shape(s) && IsPlace(s, s.owner[z]) && Hidden(s, s.owner[z])
  }

  /** `s` is `s0` with part of inode `n` torn down. Of the zones that are gone, exactly the hidden ones were lost. */
  ghost predicate Torn(s0: Fs, s: Fs, n: nat) {
    && SameConsts(s0, s) && TreeInv(s)
    && (forall m | 0 <= m < |s0.zone| && m != n :: s.zone[m] == s0.zone[m])
    && (n < |s0.zone| ==> s.zone[n][7..] == s0.zone[n][7..])
    && (forall pl | pl in s.dead :: pl.n == n)
    && (forall z :: z in s.owner <==> z in s0.owner && s0.owner[z] !in s.dead)
    && (forall z | z in s.owner :: s.owner[z] == s0.owner[z])
    && s0.leaked <= s.leaked <= s0.leaked + ZonesOf(s0, n)
    && Given(s0, s)
  }

  /** Of the zones that have gone, the hidden ones are lost and the others are free. */
  ghost predicate Given(s0: Fs, s: Fs) {
    forall z | z in s0.owner && z !in s.owner :: z in s.leaked <==> HiddenZone(s0, z)
  }

  ghost predicate Cleared(s: Fs, pl: Place)
    requires Shape(s)
  {
    IsPlace(s, pl) ==> At(s, pl) == 0 || pl in s.dead
  }

  lemma TornFree(s0: Fs, s: Fs, n: nat, pl: Place)
    requires TreeInv(s0) && Torn(s0, s, n) && IsPlace(s, pl) && pl !in s.dead && At(s, pl) != 0 && pl.n == n
    requires IsPlace(s0, pl) && !Hidden(s0, pl)
    ensures DataZone(s, At(s, pl)) && BitOf(s, At(s, pl))
    ensures Torn(s0, FreeAt(s, pl), n) && SameAt(s, FreeAt(s, pl))
  {
    hide TreeInv, At, Given, Hidden, HiddenZone, PlaceOk, OwnerOk;
    FreeAtInv(s, pl);
    OwnerInjective(s);
    NotLeaked(s, At(s, pl));
    GivenFree(s0, s, FreeAt(s, pl), At(s, pl));
    FreeOwners(s0, s, FreeAt(s, pl), n, pl, At(s, pl));
  }

  lemma NotLeaked(s: Fs, z: nat)
    requires TreeInv(s) && z in s.owner
    ensures z !in s.leaked
  {
    assert OwnerOk(s, z);
  }

  lemma FreeOwners(s0: Fs, s: Fs, s': Fs, n: nat, pl: Place, z: nat)
    requires Torn(s0, s, n) && z in s.owner && s.owner[z] == pl
    requires s'.owner == s.owner - {z} && s'.dead == s.dead + {pl}
    requires forall x, y | x in s.owner && y in s.owner && s.owner[x] == s.owner[y] :: x == y
    ensures forall y :: y in s'.owner <==> y in s0.owner && s0.owner[y] !in s'.dead
  {
    hide TreeInv, Given;
    forall y ensures y in s'.owner <==> y in s0.owner && s0.owner[y] !in s'.dead {
      assert y in s.owner <==> y in s0.owner && s0.owner[y] !in s.dead;
    }
  }

  lemma GivenFree(s0: Fs, s: Fs, s': Fs, z: nat)
    requires Given(s0, s) && s'.owner == s.owner - {z} && s'.leaked == s.leaked && z !in s.leaked
    requires z in s0.owner ==> Shape(s0) && IsPlace(s0, s0.owner[z]) && !Hidden(s0, s0.owner[z])
    ensures Given(s0, s')
  {
    hide Hidden;
  }

  ghost function ZonesBelow(s: Fs, n: nat, top: Pos): set<nat> {
    set z | z in s.owner && s.owner[z].n == n && Below(top, s.owner[z].pos)
  }

  /** Everything below an index block that cannot be read is hidden. */
  lemma BelowHidden(s: Fs, n: nat, top: Pos, p: Pos)
    requires Shape(s) && IsPlace(s, Place(n, top)) && At(s, Place(n, top)) != 0 && At(s, Place(n, top)) in s.bad
    requires ValidPos(p) && Below(top, p)
    ensures Hidden(s, Place(n, p))
  {
    if Parent(p) != top { assert Hidden(s, Place(n, Parent(p))); }
  }

  lemma TornLeak(s0: Fs, s: Fs, n: nat, top: Pos)
    requires TreeInv(s0) && Torn(s0, s, n)
    requires IsPlace(s0, Place(n, top)) && At(s0, Place(n, top)) != 0 && At(s0, Place(n, top)) in s0.bad
    ensures var s' := Leak(s, ZonesBelow(s, n, top));
            && Torn(s0, s', n) && SameAt(s, s')
            && (forall pl | pl in s'.dead :: pl in s.dead || (pl.n == n && Below(top, pl.pos)))
            && (forall p | ValidPos(p) && Below(top, p) :: Cleared(s', Place(n, p)))
            && s'.owner.Keys * ZonesBelow(s, n, top) == {}
  {
    hide TreeInv, At, Given, Hidden, Cleared, ZonesBelow, Below, HiddenZone, PlaceOk;
    var zs := ZonesBelow(s, n, top);
    ZonesBelowOk(s0, s, n, top);
    LeakInv(s, zs);
    LeakOwners(s0, s, n, top);
    GivenLeak(s0, s, n, top);
    LeakCleared(s, n, top);
  }

  lemma ZonesBelowOk(s0: Fs, s: Fs, n: nat, top: Pos)
    requires Torn(s0, s, n)
    ensures ZonesBelow(s, n, top) <= s.owner.Keys && ZonesBelow(s, n, top) <= ZonesOf(s0, n)
    ensures forall pl | pl in Leak(s, ZonesBelow(s, n, top)).dead :: pl in s.dead || (pl.n == n && Below(top, pl.pos))
  {
    hide TreeInv, Given;
  }

  lemma LeakCleared(s: Fs, n: nat, top: Pos)
    requires TreeInv(s) && Shape(Leak(s, ZonesBelow(s, n, top))) && SameAt(s, Leak(s, ZonesBelow(s, n, top)))
    ensures forall p | ValidPos(p) && Below(top, p) :: Cleared(Leak(s, ZonesBelow(s, n, top)), Place(n, p))
  {
    var s' := Leak(s, ZonesBelow(s, n, top));
    forall p | ValidPos(p) && Below(top, p) ensures Cleared(s', Place(n, p)) {
      if IsPlace(s', Place(n, p)) { assert PlaceOk(s, Place(n, p)); }
    }
  }

  lemma GivenLeak(s0: Fs, s: Fs, n: nat, top: Pos)
    requires TreeInv(s0) && Torn(s0, s, n)
    requires IsPlace(s0, Place(n, top)) && At(s0, Place(n, top)) != 0 && At(s0, Place(n, top)) in s0.bad
    ensures Given(s0, Leak(s, ZonesBelow(s, n, top)))
  {
    forall z | z in ZonesBelow(s, n, top) ensures z in s0.owner && HiddenZone(s0, z) {
      assert s0.owner[z] == s.owner[z] && OwnerOk(s0, z);
      BelowHidden(s0, n, top, s0.owner[z].pos);
    }
  }

  lemma LeakOwners(s0: Fs, s: Fs, n: nat, top: Pos)
    requires TreeInv(s0) && Torn(s0, s, n)
    ensures var s' := Leak(s, ZonesBelow(s, n, top));
            forall z :: z in s'.owner <==> z in s0.owner && s0.owner[z] !in s'.dead
  {
    forall z ensures z in Leak(s, ZonesBelow(s, n, top)).owner <==>
                     z in s0.owner && s0.owner[z] !in Leak(s, ZonesBelow(s, n, top)).dead {
      LeakOwner(s0, s, n, top, z);
    }
  }

  lemma LeakOwner(s0: Fs, s: Fs, n: nat, top: Pos, z: nat)
    requires TreeInv(s0) && Torn(s0, s, n)
    ensures var s' := Leak(s, ZonesBelow(s, n, top));
            z in s'.owner <==> z in s0.owner && s0.owner[z] !in s'.dead
  {
    var zs := ZonesBelow(s, n, top);
    var s' := Leak(s, zs);
    assert z in s.owner <==> z in s0.owner && s0.owner[z] !in s.dead;
    OwnerInjective(s);
  }

  /** Index blocks, and what they name, are as they were. */
  lemma {:induction false} TornAt(s0: Fs, s: Fs, n: nat, p: Pos)
    requires Torn(s0, s, n) && IsPlace(s0, Place(n, p)) && (p.Zone? ==> p.i >= 7)
    ensures IsPlace(s, Place(n, p)) && At(s, Place(n, p)) == At(s0, Place(n, p))
    decreases if p.Leaf? then 2 else if p.Zone? then 0 else 1
  {
    if p.Zone? {
      assert s.zone[n][7..][p.i - 7] == s0.zone[n][7..][p.i - 7];
    } else {
      TornAt(s0, s, n, Parent(p));
    }
  }

  lemma TornClear(s0: Fs, s: Fs, n: nat, i: nat)
    requires Torn(s0, s, n) && n < |s.zone| && i < 7 && Place(n, Zone(i)) in s.dead
    ensures Torn(s0, ClearDirect(s, n, i), n)
  {
    ClearDirectInv(s, n, i);
  }

  /** Truncation of inode `n`: it maps nothing, the other inodes map what they did, and every zone it owned
      is free, except exactly those that are hidden behind an index block that cannot be read. */
  ghost predicate Truncated(s0: Fs, s: Fs, n: nat) {
    && SameConsts(s0, s) && s.dead == {}
    && (forall p | ValidPos(p) && IsPlace(s, Place(n, p)) :: At(s, Place(n, p)) == 0)
    && (forall q | IsPlace(s0, q) && q.n != n :: IsPlace(s, q) && At(s, q) == At(s0, q))
    && s.owner == (map z | z in s0.owner && s0.owner[z].n != n :: s0.owner[z])
    && s.leaked == s0.leaked + LostZones(s0, n)
    && (forall z | DataZone(s0, z) :: BitOf(s, z) <==> BitOf(s0, z) && z !in ZonesOf(s0, n) - LostZones(s0, n))
  }

  lemma {:induction false} OtherAt(s0: Fs, s: Fs, n: nat, q: Place)
    requires SameConsts(s0, s) && (forall m | 0 <= m < |s0.zone| && m != n :: s.zone[m] == s0.zone[m])
    requires IsPlace(s0, q) && q.n != n
    ensures IsPlace(s, q) && At(s, q) == At(s0, q)
    decreases if q.pos.Leaf? then 2 else if q.pos.Zone? then 0 else 1
  {
    if !q.pos.Zone? { OtherAt(s0, s, n, Place(q.n, Parent(q.pos))); }
  }

  lemma TornForget(s0: Fs, s: Fs, n: nat)
    requires TreeInv(s0) && s0.dead == {} && Torn(s0, s, n) && n < |s.zone| && s.tree[n]
    requires forall p | ValidPos(p) :: Cleared(s, Place(n, p))
    ensures TreeInv(Forget(s, n)) && Truncated(s0, Forget(s, n), n)
  {
    hide TreeInv, At, Given, Hidden, HiddenZone, PlaceOk, OwnerOk, Cleared, LostZones;
    NoneLeft(s, n);
    ForgetInv(s, n);
    forall q | IsPlace(s0, q) && q.n != n ensures IsPlace(Forget(s, n), q) && At(Forget(s, n), q) == At(s0, q) {
      OtherAt(s0, s, n, q);
    }
    TornBits(s0, s, n);
  }

  lemma NoneLeft(s: Fs, n: nat)
    requires TreeInv(s) && forall p | ValidPos(p) :: Cleared(s, Place(n, p))
    ensures forall z | z in s.owner :: s.owner[z].n != n
  {
    forall z | z in s.owner ensures s.owner[z].n != n {
      assert OwnerOk(s, z);
      assert Cleared(s, Place(n, s.owner[z].pos));
    }
  }

  lemma TornBits(s0: Fs, s: Fs, n: nat)
    requires TreeInv(s0) && s0.dead == {} && Torn(s0, s, n) && forall z | z in s.owner :: s.owner[z].n != n
    ensures s.owner == (map z | z in s0.owner && s0.owner[z].n != n :: s0.owner[z])
    ensures s.leaked == s0.leaked + LostZones(s0, n)
    ensures forall z | DataZone(s0, z) :: BitOf(s, z) <==> BitOf(s0, z) && z !in ZonesOf(s0, n) - LostZones(s0, n)
  {
    forall z: nat
      ensures z in s.owner <==> z in s0.owner && s0.owner[z].n != n
      ensures z in s.leaked <==> z in s0.leaked || z in LostZones(s0, n)
    {
      TornZone(s0, s, n, z);
    }
    forall z | DataZone(s0, z) ensures BitOf(s, z) <==> BitOf(s0, z) && z !in ZonesOf(s0, n) - LostZones(s0, n) {
      assert BitOf(s, z) <==> z in s.owner || z in s.leaked;
      assert BitOf(s0, z) <==> z in s0.owner || z in s0.leaked;
      if z in s0.owner { NotLeaked(s0, z); }
    }
    hide TreeInv, BitOf, LostZones, Given;
    assert s.owner.Keys == (map z | z in s0.owner && s0.owner[z].n != n :: s0.owner[z]).Keys;
  }

  lemma TornZone(s0: Fs, s: Fs, n: nat, z: nat)
    requires TreeInv(s0) && Torn(s0, s, n) && forall y | y in s.owner :: s.owner[y].n != n
    ensures z in s.owner <==> z in s0.owner && s0.owner[z].n != n
    ensures z in s.leaked <==> z in s0.leaked || z in LostZones(s0, n)
  {
    hide TreeInv, HiddenZone;
    if z in s0.owner { NotLeaked(s0, z); }
    assert z in s.owner <==> z in s0.owner && s0.owner[z] !in s.dead;
  }

  /** The free zones. */
  ghost function FreeZones(s: Fs): set<nat>
    requires Shape(s)
  {
    set z: nat | z < s.nzones && DataZone(s, z) && !BitOf(s, z)
  }

  /** truncate frees exactly the inode's zones, except those it cannot find. */
  lemma TruncateFrees(s0: Fs, s: Fs, n: nat)
    requires TreeInv(s0) && Truncated(s0, s, n)
    ensures FreeZones(s) == FreeZones(s0) + (ZonesOf(s0, n) - LostZones(s0, n))
    ensures FreeZones(s0) !! ZonesOf(s0, n) && LostZones(s0, n) <= ZonesOf(s0, n)
    ensures |FreeZones(s)| == |FreeZones(s0)| + |ZonesOf(s0, n)| - |LostZones(s0, n)|
  {
    forall z: nat
      ensures z in FreeZones(s) <==> z in FreeZones(s0) || z in ZonesOf(s0, n) - LostZones(s0, n)
      ensures z in FreeZones(s0) ==> z !in ZonesOf(s0, n)
    {
      FreedZone(s0, s, n, z);
    }
    assert LostZones(s0, n) <= ZonesOf(s0, n);
    hide TreeInv, Truncated, FreeZones, ZonesOf, LostZones;
    assert FreeZones(s) == FreeZones(s0) + (ZonesOf(s0, n) - LostZones(s0, n));
  }

  lemma FreedZone(s0: Fs, s: Fs, n: nat, z: nat)
    requires TreeInv(s0) && Truncated(s0, s, n)
    ensures z in FreeZones(s) <==> z in FreeZones(s0) || z in ZonesOf(s0, n) - LostZones(s0, n)
    ensures z in FreeZones(s0) ==> z !in ZonesOf(s0, n)
  {
    hide LostZones;
    if z in s0.owner { assert OwnerOk(s0, z) && BitOf(s0, z); }
    if DataZone(s0, z) {
      assert BitOf(s, z) <==> BitOf(s0, z) && z !in ZonesOf(s0, n) - LostZones(s0, n);
    }
  }

  /** When every zone of the inode can be read, none is lost. */
  lemma NothingLost(s: Fs, n: nat)
    requires TreeInv(s) && s.dead == {} && Readable(s, n)
    ensures LostZones(s, n) == {}
  {
    forall z | z in s.owner && s.owner[z].n == n ensures !HiddenZone(s, z) {
      assert OwnerOk(s, z);
      ReadableAt(s, s.owner[z]);
    }
  }

  /** A truncated file reads as zeros everywhere, and the other files are untouched. */
  lemma TruncatedFiles(s0: Fs, s: Fs, n: nat)
    requires TreeInv(s0) && s0.dead == {} && Truncated(s0, s, n) && n < |s0.tree| && s0.tree[n]
    ensures FileOf(s, n) == seq(LIMIT, _ => 0)
    ensures forall m | 0 <= m < |s0.tree| && s0.tree[m] && m != n :: FileOf(s, m) == FileOf(s0, m)
  {
    forall p | 0 <= p < LIMIT ensures ByteAt(s, n, p) == 0 {
    }
    forall m, p | 0 <= m < |s0.tree| && s0.tree[m] && m != n && 0 <= p < LIMIT
      ensures ByteAt(s, m, p) == ByteAt(s0, m, p)
    {
      assert At(s, Place(m, PosOf(p / BLOCK_SIZE))) == At(s0, Place(m, PosOf(p / BLOCK_SIZE)));
    }
    assert FileOf(s, n) == seq(LIMIT, _ => 0);
  }
}
