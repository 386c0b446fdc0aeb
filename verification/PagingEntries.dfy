/** The elementary changes to single page-table entries: map, unmap, share, make writable, split, store. */
module PagingEntries {
  import opened Words
  import opened PagingState
  import opened PagingSteps

  /** Everything except the entry `p` and the uses recorded for it is as in `s`. */
  ghost predicate OnlyEntry(s: State, s': State, p: Pg)
    requires Sized(s) && Sized(s')
  {
    && (forall d :: Dir(s', d) == Dir(s, d))
    && (forall q | q != p && (IsUser(q) || q.d < 16) :: Entry(s', q) == Entry(s, q))
    && ViewsSame(s, s', {p})
    && LowSame(s, s')
  }

  ghost function Uses(s: State, w: Word): set<Ref>
    requires Sized(s)
  {
    if Present(w) && LOW <= FrameOf(w) < HIGH then s.refs[FrameOf(w) - LOW] else {}
  }

  /** The uses of the frame behind `w`, if it is a counted frame. */
  ghost function SetUsesOf(s: State, w: Word, uses: set<Ref>): State
    requires Sized(s)
  {
    if Present(w) && LOW <= FrameOf(w) < HIGH then SetUses(s, FrameOf(w) - LOW, uses) else s
  }

  // ---------- Unmapping ----------

  ghost function Unmap(s: State, p: Pg): State
    requires Sized(s) && HasTable(s, p.d) && p.t < 1024
  {
    var w := Entry(s, p);
    SetUsesOf(SetEntry(s, p, 0), w, Uses(s, w) - {Pte(p)})
  }

  lemma UnmapInv(s: State, p: Pg)
    requires Inv(s) && IsUser(p) && HasTable(s, p.d) && Present(Entry(s, p))
    ensures FrameOf(Entry(s, p)) < HIGH
    ensures FrameOf(Entry(s, p)) >= LOW ==> Pte(p) in Uses(s, Entry(s, p)) && s.mp[FrameOf(Entry(s, p)) - LOW] > 0
    ensures Inv(Unmap(s, p)) && OnlyEntry(s, Unmap(s, p), p) && Entry(Unmap(s, p), p) == 0
  {
    var w := Entry(s, p);
    var fs := if LOW <= FrameOf(w) < HIGH then {FrameOf(w) - LOW} else {};
    UnmapEntries(s, p);
    UnmapOutside(s, p, fs);
    hide Outside, OnlyEntry, Unmap;
    if FrameOf(w) >= LOW { UnmapFrame(s, p, FrameOf(w) - LOW); }
    Reframe(s, Unmap(s, p), {}, {p}, fs);
  }

  lemma UnmapFrame(s: State, p: Pg, j: nat)
    requires Inv(s) && IsUser(p) && HasTable(s, p.d) && Present(Entry(s, p)) && j < PAGES && FrameOf(Entry(s, p)) == LOW + j
    ensures Sized(Unmap(s, p)) && FrameOk(Unmap(s, p), j) && KeepsUses(s, Unmap(s, p), {}, {p}, j)
  {
    UnmapEntries(s, p);
    UnmapRefs(s, p);
    hide Unmap, Entry, Dir, ViewsSame, LowSame;
    OtherRefs(s, Unmap(s, p), p, j);
    hide Inv;
  }

  lemma UnmapOutside(s: State, p: Pg, fs: set<nat>)
    requires Inv(s) && IsUser(p) && HasTable(s, p.d) && Present(Entry(s, p))
    requires fs == if LOW <= FrameOf(Entry(s, p)) < HIGH then {FrameOf(Entry(s, p)) - LOW} else {}
    ensures Sized(Unmap(s, p)) && Outside(s, Unmap(s, p), {}, {p}, fs) && EntryOk(Unmap(s, p), p)
  {
    UnmapEntries(s, p);
    PteElsewhere(s, p);
    UnmapRefs(s, p);
    hide Unmap, Entry, Dir, ViewsSame, LowSame, Inv;
  }

  /** A page's use is recorded at its own frame only. */
  lemma PteElsewhere(s: State, p: Pg)
    requires Inv(s)
    ensures forall j | 0 <= j < PAGES && Pte(p) in s.refs[j] :: Present(Entry(s, p)) && FrameOf(Entry(s, p)) == LOW + j
  {
    forall j | 0 <= j < PAGES && Pte(p) in s.refs[j] ensures Present(Entry(s, p)) && FrameOf(Entry(s, p)) == LOW + j {
      assert FrameOk(s, j) && RefOk(s, j, Pte(p));
    }
  }

  /** When only the entry of `p` changed, the uses of frame `j` other than that of `p` are still good. */
  lemma OtherRefs(s: State, s': State, p: Pg, j: nat)
    requires Inv(s) && Sized(s') && j < PAGES
    requires forall d :: Dir(s', d) == Dir(s, d)
    requires forall q | q != p && (IsUser(q) || q.d < 16) :: Entry(s', q) == Entry(s, q)
    ensures forall r | r in s.refs[j] && r != Pte(p) :: RefOk(s', j, r)
    ensures forall a, b | a in s.refs[j] && b in s.refs[j] :: Compatible(a, b)
    ensures s.mp[j] == |s.refs[j]|
    ensures forall q | Pte(q) in s.refs[j] && Writable(Entry(s, q)) :: s.refs[j] == {Pte(q)}
  {
    assert FrameOk(s, j);
    forall r | r in s.refs[j] && r != Pte(p) ensures RefOk(s', j, r) {
      assert RefOk(s, j, r);
    }
    forall q | Pte(q) in s.refs[j] && Writable(Entry(s, q)) ensures s.refs[j] == {Pte(q)} {
      assert RefOk(s, j, Pte(q)) && EntryOk(s, q);
    }
  }

  lemma UnmapEntries(s: State, p: Pg)
    requires Inv(s) && IsUser(p) && HasTable(s, p.d) && Present(Entry(s, p))
    ensures LOW <= FrameOf(Dir(s, p.d)) && FrameOf(Entry(s, p)) < HIGH
    ensures FrameOf(Entry(s, p)) >= LOW ==> Pte(p) in Uses(s, Entry(s, p)) && s.mp[FrameOf(Entry(s, p)) - LOW] > 0
    ensures OnlyEntry(s, Unmap(s, p), p) && Entry(Unmap(s, p), p) == 0
    ensures KernelOk(Unmap(s, p))
  {
    UnmapUses(s, p);
    hide Inv;
    var s' := Unmap(s, p);
    var mid := SetEntry(s, p, 0);
    SetEntryFrame(s, p, 0);
    assert s'.fr == mid.fr;
    assert forall q :: Entry(s', q) == Entry(mid, q);
    hide ViewsSame, LowSame, KernelOk, Unmap;
    KernelOkFrame(s, s');
    EntryViews(s, s', p);
  }

  lemma UnmapRefs(s: State, p: Pg)
    requires Inv(s) && IsUser(p) && HasTable(s, p.d) && Present(Entry(s, p))
    ensures Sized(Unmap(s, p))
    ensures forall j | 0 <= j < PAGES :: var uses := s.refs[j] - {Pte(p)};
              if FrameOf(Entry(s, p)) == LOW + j then Unmap(s, p).refs[j] == uses && Unmap(s, p).mp[j] == |uses|
              else Unmap(s, p).refs[j] == s.refs[j] && Unmap(s, p).mp[j] == s.mp[j]
  {
  }

  lemma UnmapUses(s: State, p: Pg)
    requires Inv(s) && IsUser(p) && HasTable(s, p.d) && Present(Entry(s, p))
    ensures Sized(s) && LOW <= FrameOf(Dir(s, p.d)) && FrameOf(Entry(s, p)) < HIGH
    ensures FrameOf(Entry(s, p)) >= LOW ==> Pte(p) in Uses(s, Entry(s, p)) && s.mp[FrameOf(Entry(s, p)) - LOW] > 0
  {
    assert EntryOk(s, p) && TableOk(s, p.d);
    if FrameOf(Entry(s, p)) >= LOW { assert FrameOk(s, FrameOf(Entry(s, p)) - LOW); }
  }

  /** When the frame of `p`'s table is all that was stored into, every other page reads as before. */
  lemma EntryViews(s: State, s': State, p: Pg)
    requires Inv(s) && Sized(s') && IsUser(p) && HasTable(s, p.d)
    requires forall q | q != p && (IsUser(q) || q.d < 16) :: Entry(s', q) == Entry(s, q)
    requires forall d :: Dir(s', d) == Dir(s, d)
    requires forall f | 0 <= f < HIGH && f != FrameOf(Dir(s, p.d)) :: s'.fr[f] == s.fr[f]
    ensures ViewsSame(s, s', {p}) && LowSame(s, s')
  {
    assert TableOk(s, p.d);
    forall q | IsUser(q) && q !in {p} && Present(Entry(s, q)) && FrameOf(Entry(s, q)) >= LOW
      ensures FrameOf(Entry(s, q)) < HIGH ==> s'.fr[FrameOf(Entry(s, q))] == s.fr[FrameOf(Entry(s, q))]
    {
      NotATable(s, q, p.d);
    }
    SameViews(s, s', {p});
  }

  // ---------- Mapping a page the kernel holds ----------

  ghost function MapHeld(s: State, p: Pg, i: nat): State
    requires Sized(s) && HasTable(s, p.d) && p.t < 1024 && i < PAGES
  {
    SetUses(SetEntry(s, p, UserEntry(LOW + i)), i, {Pte(p)})
  }

  lemma MapHeldInv(s: State, p: Pg, i: nat)
    requires Inv(s) && IsUser(p) && HasTable(s, p.d) && !Present(Entry(s, p))
    requires i < PAGES && Kernel in s.refs[i]
    ensures s.mp[i] == 1 && s.refs[i] == {Kernel}
    ensures Inv(MapHeld(s, p, i)) && OnlyEntry(s, MapHeld(s, p, i), p)
    ensures Entry(MapHeld(s, p, i), p) == UserEntry(LOW + i)
    ensures Mapped(MapHeld(s, p, i), p) && View(MapHeld(s, p, i), p) == Own(s.fr[LOW + i])
  {
    var s' := MapHeld(s, p, i);
    var w := UserEntry(LOW + i);
    UserEntryDecodes(LOW + i);
    HeldAlone(s, i, Kernel);
    SetEntryFrame(s, p, w);
    assert TableOk(s, p.d);
    assert forall q :: Entry(s', q) == Entry(SetEntry(s, p, w), q);
    KernelOkFrame(s, s');
    EntryViews(s, s', p);
    PteElsewhere(s, p);
    assert FrameOk(s', i);
    Reframe(s, s', {}, {p}, {i});
    assert TableAlone(s, p.d, i);
  }

  /** A frame the kernel holds is no table. */
  ghost predicate TableAlone(s: State, d: nat, i: nat)
    requires Sized(s)
  {
    FrameOf(Dir(s, d)) != LOW + i
  }

  // ---------- Sharing on fork ----------

  /** Copying the entry of `p` into the empty entry of `q`, write-protecting both when the page is counted. */
  ghost function Share(s: State, p: Pg, q: Pg): State
    requires Sized(s) && HasTable(s, p.d) && p.t < 1024 && HasTable(s, q.d) && q.t < 1024
  {
    var w := WriteProtect(Entry(s, p));
    var s1 := SetEntry(s, q, w);
    if LOW <= FrameOf(w) < HIGH && HasTable(s1, p.d) then
      SetUses(SetEntry(s1, p, w), FrameOf(w) - LOW, s.refs[FrameOf(w) - LOW] + {Pte(q)})
    else
      s1
  }

  ghost predicate CanShare(s: State, p: Pg, q: Pg) {
    && Inv(s) && p.t < 1024 && IsUser(q) && p != q
    && HasTable(s, p.d) && HasTable(s, q.d) && Present(Entry(s, p)) && !Present(Entry(s, q))
    && q.t == p.t && q.d % 16 == p.d % 16
    && (IsUser(p) || (p.d == 0 && p.t < 160))
  }

  lemma ShareEntries(s: State, p: Pg, q: Pg)
    requires CanShare(s, p, q)
    ensures FrameOf(Entry(s, p)) < HIGH
    ensures var s' := Share(s, p, q); var w := WriteProtect(Entry(s, p));
            && (forall d :: Dir(s', d) == Dir(s, d))
            && Entry(s', q) == w
            && (FrameOf(w) >= LOW ==> Entry(s', p) == w)
            && (FrameOf(w) < LOW ==> Entry(s', p) == Entry(s, p))
            && (forall r | r != p && r != q && (IsUser(r) || r.d < 16) :: Entry(s', r) == Entry(s, r))
            && KernelOk(s') && LowSame(s, s')
            && (forall d :: HasTable(s', d) == HasTable(s, d))
    ensures var s' := Share(s, p, q);
            forall f | 0 <= f < HIGH && f != FrameOf(Dir(s, p.d)) && f != FrameOf(Dir(s, q.d)) :: s'.fr[f] == s.fr[f]
  {
    var w := WriteProtect(Entry(s, p));
    WriteProtectKeeps(Entry(s, p));
    if IsUser(p) { assert EntryOk(s, p) && TableOk(s, p.d); }
    assert TableOk(s, q.d);
    var s1 := SetEntry(s, q, w);
    SetEntryFrame(s, q, w);
    if FrameOf(w) >= LOW {
      SetTwo(s, s1, p, q, w);
    }
  }

  lemma SetTwo(s: State, s1: State, p: Pg, q: Pg, w: Word)
    requires CanShare(s, p, q) && IsUser(p) && s1 == SetEntry(s, q, w) && Sized(s1) && KernelOk(s1)
    requires forall d :: Dir(s1, d) == Dir(s, d)
    ensures HasTable(s1, p.d)
    ensures var s2 := SetEntry(s1, p, w);
            && (forall r | r != p && (IsUser(r) || r.d < 16) :: Entry(s2, r) == Entry(s1, r))
            && Entry(s2, p) == w && KernelOk(s2)
            && (forall d :: Dir(s2, d) == Dir(s, d))
  {
    var s2 := SetEntry(s1, p, w);
    assert TableOk(s, p.d) && TableOk(s, q.d);
    forall r | r != p && (IsUser(r) || r.d < 16) ensures Entry(s2, r) == Entry(s1, r) {
      if r.d != p.d && 16 <= r.d && Present(Dir(s, r.d)) {
        TablesApart(s, r.d, p.d);
      }
    }
    KernelOkFrame(s1, s2);
  }

  lemma ShareViews(s: State, p: Pg, q: Pg)
    requires CanShare(s, p, q)
    ensures ViewsSame(s, Share(s, p, q), {q})
    ensures Mapped(Share(s, p, q), q) && Mapped(s, p) && View(Share(s, p, q), q) == View(s, p)
  {
    var s' := Share(s, p, q);
    ShareEntries(s, p, q);
    WriteProtectKeeps(Entry(s, p));
    assert TableOk(s, q.d);
    forall r | IsUser(r) && Present(Entry(s, r))
      ensures FrameOf(Entry(s, r)) < HIGH
      ensures FrameOf(Entry(s, r)) >= LOW ==> s'.fr[FrameOf(Entry(s, r))] == s.fr[FrameOf(Entry(s, r))]
    {
      NotATable(s, r, q.d);
      if IsUser(p) { NotATable(s, r, p.d); }
      if p.d == 0 { assert FrameOf(Dir(s, 0)) < LOW; }
    }
  }

  lemma ShareInv(s: State, p: Pg, q: Pg)
    requires CanShare(s, p, q)
    ensures Inv(Share(s, p, q))
    ensures LOW <= FrameOf(Entry(s, p)) < HIGH ==>
              var i := FrameOf(Entry(s, p)) - LOW;
              Pte(q) !in s.refs[i] && Share(s, p, q).mp[i] == s.mp[i] + 1 <= 63
  {
    ShareEntries(s, p, q);
    if FrameOf(Entry(s, p)) >= LOW {
      ShareInvCounted(s, p, q, FrameOf(Entry(s, p)) - LOW);
    } else {
      WriteProtectKeeps(Entry(s, p));
      PteElsewhere(s, q);
      Reframe(s, Share(s, p, q), {}, {q}, {});
    }
  }

  /** Sharing takes no frame. */
  lemma ShareCounts(s: State, p: Pg, q: Pg)
    requires CanShare(s, p, q)
    ensures FreeCount(Share(s, p, q).mp) == FreeCount(s.mp)
  {
    WriteProtectKeeps(Entry(s, p));
    if LOW <= FrameOf(Entry(s, p)) < HIGH {
      var i := FrameOf(Entry(s, p)) - LOW;
      assert IsUser(p) ==> EntryOk(s, p);
      assert FrameOk(s, i);
      ShareInv(s, p, q);
      FreeCountSet(s.mp, i, |s.refs[i] + {Pte(q)}|);
    }
  }

  lemma ShareInvCounted(s: State, p: Pg, q: Pg, i: nat)
    requires CanShare(s, p, q) && i < PAGES && FrameOf(Entry(s, p)) == LOW + i
    ensures Inv(Share(s, p, q))
    ensures Pte(q) !in s.refs[i] && Share(s, p, q).mp[i] == s.mp[i] + 1 <= 63
  {
    ShareEntries(s, p, q);
    ShareFrame(s, p, q, i);
    ShareOutside(s, p, q, i);
    ShareCount(s, p, q, i);
    hide Share;
    Reframe(s, Share(s, p, q), {}, {p, q}, {i});
    CountBound(Share(s, p, q), i);
  }

  lemma ShareCount(s: State, p: Pg, q: Pg, i: nat)
    requires CanShare(s, p, q) && i < PAGES && FrameOf(Entry(s, p)) == LOW + i && Pte(q) !in s.refs[i]
    ensures Sized(Share(s, p, q)) && Share(s, p, q).mp[i] == s.mp[i] + 1
  {
    WriteProtectKeeps(Entry(s, p));
    assert EntryOk(s, p) && FrameOk(s, i);
    if p.d != q.d { TablesApart(s, p.d, q.d); }
    ShareEntries(s, p, q);
  }

  lemma ShareOutside(s: State, p: Pg, q: Pg, i: nat)
    requires CanShare(s, p, q) && i < PAGES && FrameOf(Entry(s, p)) == LOW + i
    ensures Outside(s, Share(s, p, q), {}, {p, q}, {i})
    ensures EntryOk(Share(s, p, q), p) && EntryOk(Share(s, p, q), q)
  {
    ShareEntries(s, p, q);
    WriteProtectKeeps(Entry(s, p));
    PteElsewhere(s, p);
    PteElsewhere(s, q);
    assert EntryOk(s, p);
  }

  lemma ShareFrame(s: State, p: Pg, q: Pg, i: nat)
    requires CanShare(s, p, q) && i < PAGES && FrameOf(Entry(s, p)) == LOW + i
    ensures FrameOk(Share(s, p, q), i) && KeepsUses(s, Share(s, p, q), {}, {p, q}, i)
    ensures Pte(q) !in s.refs[i]
  {
    PteElsewhere(s, q);
    ShareFrameOk(s, p, q, i);
    ShareKeepsUses(s, p, q, i);
  }

  /** The uses that sharing records. */
  lemma SharedUses(s: State, p: Pg, q: Pg, i: nat)
    requires CanShare(s, p, q) && i < PAGES && FrameOf(Entry(s, p)) == LOW + i
    ensures var s' := Share(s, p, q);
            && Sized(s') && s'.refs == s.refs[i := s.refs[i] + {Pte(q)}] && s'.mp == s.mp[i := |s.refs[i] + {Pte(q)}|]
    ensures EntryOk(s, p) && FrameOk(s, i) && Pte(p) in s.refs[i]
  {
    CountedUse(s, p, q, i);
    ShareSecond(s, p, q);
    assert HasTable(s, p.d) && HasTable(s, q.d) && p.t < 1024 && q.t < 1024;
    WriteProtectKeeps(Entry(s, p));
    hide *;
    ShareUses(s, p, q, i);
  }

  lemma CountedUse(s: State, p: Pg, q: Pg, i: nat)
    requires CanShare(s, p, q) && i < PAGES && FrameOf(Entry(s, p)) == LOW + i
    ensures Sized(s) && IsUser(p) && EntryOk(s, p) && FrameOk(s, i) && Pte(p) in s.refs[i]
  {
    assert EntryOk(s, p) && FrameOk(s, i);
  }

  lemma ShareUses(s: State, p: Pg, q: Pg, i: nat)
    requires Sized(s) && HasTable(s, p.d) && p.t < 1024 && HasTable(s, q.d) && q.t < 1024 && i < PAGES
    requires var w := WriteProtect(Entry(s, p)); FrameOf(w) == LOW + i && HasTable(SetEntry(s, q, w), p.d)
    ensures var s' := Share(s, p, q);
            && Sized(s') && s'.refs == s.refs[i := s.refs[i] + {Pte(q)}] && s'.mp == s.mp[i := |s.refs[i] + {Pte(q)}|]
  {
    hide Entry;
  }

  lemma ShareFrameOk(s: State, p: Pg, q: Pg, i: nat)
    requires CanShare(s, p, q) && i < PAGES && FrameOf(Entry(s, p)) == LOW + i && Pte(q) !in s.refs[i]
    ensures Sized(Share(s, p, q)) && FrameOk(Share(s, p, q), i)
  {
    var s' := Share(s, p, q);
    ShareEntries(s, p, q);
    SharedUses(s, p, q, i);
    WriteProtectKeeps(Entry(s, p));
    hide Share, CanShare, Inv, Entry, Dir, HasTable, EntryOk;
    forall r | r in s'.refs[i] ensures RefOk(s', i, r) {
      if r != Pte(q) { assert RefOk(s, i, r); }
    }
    forall a | a in s.refs[i] ensures Compatible(a, Pte(q)) && Compatible(Pte(q), a) {
      assert Compatible(a, Pte(p));
    }
  }

  lemma ShareKeepsUses(s: State, p: Pg, q: Pg, i: nat)
    requires CanShare(s, p, q) && i < PAGES && FrameOf(Entry(s, p)) == LOW + i && Pte(q) !in s.refs[i]
    ensures Sized(Share(s, p, q)) && KeepsUses(s, Share(s, p, q), {}, {p, q}, i)
  {
    SharedUses(s, p, q, i);
    assert HasTable(s, p.d) && HasTable(s, q.d) && p.t < 1024 && q.t < 1024;
    hide *;
    SoleWriter(s, p, q, i);
    KeptUses(s, Share(s, p, q), p, q, i);
  }

  lemma KeptUses(s: State, s': State, p: Pg, q: Pg, i: nat)
    requires Sized(s) && Sized(s') && i < PAGES && s'.refs[i] == s.refs[i] + {Pte(q)}
    requires forall r | Pte(r) in s.refs[i] && Writable(Entry(s, r)) :: r == p
    ensures KeepsUses(s, s', {}, {p, q}, i)
  {
    hide Entry;
  }

  /** Only the sole user of a frame may have write permission. */
  lemma SoleWriter(s: State, p: Pg, q: Pg, i: nat)
    requires CanShare(s, p, q) && i < PAGES && Pte(p) in s.refs[i]
    ensures Sized(s) && forall r | Pte(r) in s.refs[i] && Writable(Entry(s, r)) :: r == p
  {
    assert FrameOk(s, i);
    forall r | Pte(r) in s.refs[i] && Writable(Entry(s, r)) ensures r == p {
      assert RefOk(s, i, Pte(r)) && EntryOk(s, r);
    }
  }

  /** The words that sharing an entry stores. */
  lemma ShareWords(s: State, p: Pg, q: Pg)
    requires CanShare(s, p, q)
    ensures FrameOf(Entry(s, p)) < HIGH
    ensures var w := WriteProtect(Entry(s, p));
            var tp, tq, i := FrameOf(Dir(s, p.d)), FrameOf(Dir(s, q.d)), FrameOf(w) - LOW;
            var fr1 := s.fr[tq := s.fr[tq][q.t := w]];
            if i >= 0 then
              && i < PAGES
              && Share(s, p, q).fr == fr1[tp := fr1[tp][p.t := w]]
              && Share(s, p, q).mp == s.mp[i := s.mp[i] + 1]
              && Share(s, p, q).refs == s.refs[i := s.refs[i] + {Pte(q)}]
            else
              Share(s, p, q) == s.(fr := fr1)
    ensures FrameOf(Entry(s, p)) >= LOW ==> s.mp[FrameOf(Entry(s, p)) - LOW] < 63
  {
    WriteProtectKeeps(Entry(s, p));
    ShareEntries(s, p, q);
    ShareInv(s, p, q);
    if FrameOf(Entry(s, p)) >= LOW {
      assert IsUser(p);
      ShareSecond(s, p, q);
    }
  }

  lemma ShareSecond(s: State, p: Pg, q: Pg)
    requires CanShare(s, p, q) && IsUser(p)
    ensures var s1 := SetEntry(s, q, WriteProtect(Entry(s, p)));
            Sized(s1) && HasTable(s1, p.d) && Dir(s1, p.d) == Dir(s, p.d)
  {
    SetEntryFrame(s, q, WriteProtect(Entry(s, p)));
  }
}
