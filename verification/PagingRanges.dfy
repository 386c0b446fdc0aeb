/** What freeing, and copying, a range of page-directory slots has done when it is part of the way through. */
module PagingRanges {
  import opened Words
  import opened PagingState
  import opened PagingSteps
  import opened PagingEntries
  import opened AddressSpaces

  // ---------- Freeing ----------

  /** Page `p` is among slots `base`..`d` or the first `t` entries of slot `d`. */
  predicate Gone(p: Pg, base: nat, d: nat, t: nat) {
    base <= p.d < d || (p.d == d && p.t < t)
  }

  predicate GoneRef(r: Ref, base: nat, d: nat, t: nat) {
    match r
    case Pte(p) => Gone(p, base, d, t)
    case Table(e) => base <= e < d
    case Kernel => false
    case Orphan => false
  }

  /** `s` is `s0` with everything up to entry `t` of slot `d` unmapped, and nothing else changed. */
  ghost predicate Freed(s0: State, s: State, base: nat, d: nat, t: nat) {
    && Sized(s0) && Sized(s)
    && LowSame(s0, s)
    && (forall e: nat :: Dir(s, e) == if base <= e < d && Present(Dir(s0, e)) then 0 else Dir(s0, e))
    && (forall p | IsUser(p) :: Entry(s, p) == if Gone(p, base, d, t) then 0 else Entry(s0, p))
    && (forall p | IsUser(p) && !Gone(p, base, d, t) && Mapped(s0, p) :: Mapped(s, p) && View(s, p) == View(s0, p))
    && (forall i, r {:trigger r in s.refs[i]} {:trigger r in s0.refs[i]} |
          0 <= i < PAGES :: r in s.refs[i] <==> r in s0.refs[i] && !GoneRef(r, base, d, t))
  }

  lemma FreedRef(s0: State, s: State, base: nat, d: nat, t: nat, i: nat, r: Ref)
    requires Freed(s0, s, base, d, t) && i < PAGES
    ensures r in s.refs[i] <==> r in s0.refs[i] && !GoneRef(r, base, d, t)
  {
  }

  lemma FreedDir(s0: State, s: State, base: nat, d: nat, e: nat)
    requires Freed(s0, s, base, d, 0)
    ensures Present(Dir(s, e)) ==> Dir(s, e) == Dir(s0, e) && !(base <= e < d)
  {
  }

  /** Storing 0 in a page-table entry, dropping the use it stood for. */
  ghost function Clear(s: State, p: Pg): State
    requires Sized(s) && HasTable(s, p.d) && p.t < 1024
  {
    if Present(Entry(s, p)) then Unmap(s, p) else SetEntry(s, p, 0)
  }

  lemma ClearInv(s: State, p: Pg)
    requires Inv(s) && IsUser(p) && HasTable(s, p.d)
    ensures Inv(Clear(s, p)) && OnlyEntry(s, Clear(s, p), p) && Entry(Clear(s, p), p) == 0
    ensures forall i | 0 <= i < PAGES :: Clear(s, p).refs[i] == s.refs[i] - {Pte(p)}
  {
    PteElsewhere(s, p);
    if Present(Entry(s, p)) {
      UnmapInv(s, p);
    } else {
      SetEntryFrame(s, p, 0);
      assert TableOk(s, p.d);
      EntryViews(s, SetEntry(s, p, 0), p);
      Reframe(s, SetEntry(s, p, 0), {}, {p}, {});
    }
  }

  /** The words that clearing an entry stores. */
  lemma ClearWords(s: State, p: Pg)
    requires Inv(s) && IsUser(p) && HasTable(s, p.d)
    ensures var f := FrameOf(Dir(s, p.d)); Clear(s, p).fr == s.fr[f := s.fr[f][p.t := 0]]
    ensures var w := Entry(s, p); var i := FrameOf(w) - LOW;
            if Present(w) && i >= 0 then
              && i < PAGES && s.mp[i] > 0
              && Clear(s, p).mp == s.mp[i := s.mp[i] - 1] && Clear(s, p).refs == s.refs[i := s.refs[i] - {Pte(p)}]
            else
              Clear(s, p).mp == s.mp && Clear(s, p).refs == s.refs
    ensures Present(Entry(s, p)) ==> FrameOf(Entry(s, p)) < HIGH
  {
    if Present(Entry(s, p)) {
      UnmapInv(s, p);
      if FrameOf(Entry(s, p)) >= LOW { assert FrameOk(s, FrameOf(Entry(s, p)) - LOW); }
    }
  }

  lemma FreeEntryStep(s0: State, s: State, base: nat, d: nat, t: nat)
    requires Freed(s0, s, base, d, t) && Inv(s) && 16 <= base <= d < 1024 && t < 1024 && HasTable(s, d)
    ensures Inv(Clear(s, Pg(d, t))) && Freed(s0, Clear(s, Pg(d, t)), base, d, t + 1)
    ensures HasTable(Clear(s, Pg(d, t)), d)
  {
    var p := Pg(d, t);
    var s' := Clear(s, p);
    ClearInv(s, p);
    hide Clear;
    assert forall q :: Gone(q, base, d, t + 1) <==> Gone(q, base, d, t) || q == Pg(d, t);
    forall i, r | 0 <= i < PAGES ensures r in s'.refs[i] <==> r in s0.refs[i] && !GoneRef(r, base, d, t + 1) {
      assert GoneRef(r, base, d, t + 1) <==> GoneRef(r, base, d, t) || r == Pte(p);
    }
  }

  lemma FreeTableStep(s0: State, s: State, base: nat, d: nat)
    requires Inv(s0) && Freed(s0, s, base, d, 1024) && Inv(s) && 16 <= base <= d < 1024 && Present(Dir(s, d))
    ensures LOW <= FrameOf(Dir(s, d)) < HIGH
    ensures s.mp[FrameOf(Dir(s, d)) - LOW] == 1
    ensures Inv(DropTable(s, d)) && Freed(s0, DropTable(s, d), base, d + 1, 0)
  {
    assert forall t | 0 <= t < 1024 :: Entry(s, Pg(d, t)) == 0 by {
      assert forall t | 0 <= t < 1024 :: IsUser(Pg(d, t)) && Gone(Pg(d, t), base, d, 1024);
    }
    DropTableInv(s, d);
    var s' := DropTable(s, d);
    DropTableRefs(s, d);
    hide DropTable;
    RefsReal(s0);
    assert forall p | IsUser(p) :: Gone(p, base, d + 1, 0) <==> Gone(p, base, d, 1024);
    forall i, r | 0 <= i < PAGES ensures r in s'.refs[i] <==> r in s0.refs[i] && !GoneRef(r, base, d + 1, 0) {
      assert s'.refs[i] == s.refs[i] - {Table(d)};
      FreedRef(s0, s, base, d, 1024, i, r);
      if r in s0.refs[i] {
        assert RefOk(s0, i, r);
        assert GoneRef(r, base, d + 1, 0) <==> GoneRef(r, base, d, 1024) || r == Table(d);
      }
    }
  }

  lemma DropTableRefs(s: State, d: nat)
    requires Inv(s) && 16 <= d < 1024 && Present(Dir(s, d)) && LOW <= FrameOf(Dir(s, d)) < HIGH
    ensures forall i | 0 <= i < PAGES :: DropTable(s, d).refs[i] == s.refs[i] - {Table(d)}
  {
    assert TableOk(s, d);
    HeldAlone(s, FrameOf(Dir(s, d)) - LOW, Table(d));
    forall i | 0 <= i < PAGES && Table(d) in s.refs[i] ensures i == FrameOf(Dir(s, d)) - LOW {
      assert FrameOk(s, i) && RefOk(s, i, Table(d));
    }
  }

  lemma FreeSkipStep(s0: State, s: State, base: nat, d: nat)
    requires Inv(s0) && Freed(s0, s, base, d, 0) && Inv(s) && 16 <= base <= d < 1024 && !Present(Dir(s, d))
    ensures Freed(s0, s, base, d + 1, 0)
  {
    RefsReal(s0);
    assert Dir(s, d) == Dir(s0, d);
    forall i, r | 0 <= i < PAGES ensures r in s.refs[i] <==> r in s0.refs[i] && !GoneRef(r, base, d + 1, 0) {
      FreedRef(s0, s, base, d, 0, i, r);
      if r in s0.refs[i] {
        assert RefOk(s0, i, r);
        assert GoneRef(r, base, d + 1, 0) <==> GoneRef(r, base, d, 0);
      }
    }
  }

  // ---------- Copying ----------

  /** Slots `from`.. and `to`.. are at the same offset in two tasks; only task 0's first slot may come from the kernel. */
  predicate CopyArgs(from: nat, to: nat, n: nat) {
    && 16 <= to && to + n <= 1024 && from + n <= 1024 && from % 16 == to % 16
    && (from + n <= to || to + n <= from)
    && (16 <= from || (from == 0 && n <= 1))
  }

  /** How many entries of each table are copied: 160 when the source is kernel space. */
  function EntryCount(from: nat): nat { if from == 0 then 160 else 1024 }

  predicate ChildRef(r: Ref, to: nat, n: nat) {
    match r
    case Pte(p) => InSlots(p.d, to, n)
    case Table(e) => InSlots(e, to, n)
    case Kernel => false
    case Orphan => false
  }

  predicate Reached(q: Pg, from: nat, to: nat, j: nat, t: nat) {
    (q.d < to + j || (q.d == to + j && q.t < t)) && q.t < EntryCount(from)
  }

  /** A page outside the child is as it was, up to losing its write permission. */
  ghost predicate OldPage(s0: State, s: State, p: Pg)
    requires Sized(s0) && Sized(s)
  {
    && (Entry(s, p) == Entry(s0, p) || Entry(s, p) == WriteProtect(Entry(s0, p)))
    && (Mapped(s, p) <==> Mapped(s0, p))
    && (Mapped(s0, p) ==> View(s, p) == View(s0, p))
  }

  /** A page of the child that has been reached mirrors the parent's; the others are empty. */
  ghost predicate NewPage(s0: State, s: State, q: Pg, from: nat, to: nat, j: nat, t: nat)
    requires Sized(s0) && Sized(s) && to <= q.d
  {
    if Reached(q, from, to, j, t) then
      && (Present(Entry(s, q)) <==> Mapped(s0, ParentPage(q, from, to)))
      && (Present(Entry(s, q)) ==> Mapped(s, q) && View(s, q) == View(s0, ParentPage(q, from, to)))
    else
      !Present(Entry(s, q))
  }

  /** `s` is `s0` after copying `j` slots and the first `t` entries of the next. */
  ghost predicate Copied(s0: State, s: State, from: nat, to: nat, n: nat, j: nat, t: nat) {
    && Sized(s0) && Sized(s)
    && LowSame(s0, s)
    && (forall e: nat | !InSlots(e, to, n) :: Dir(s, e) == Dir(s0, e))
    && (forall e: nat | to + j < e < to + n :: !Present(Dir(s, e)))
    && (forall p | IsUser(p) && !InSlots(p.d, to, n) :: OldPage(s0, s, p))
    && (forall q | IsUser(q) && InSlots(q.d, to, n) :: NewPage(s0, s, q, from, to, j, t))
    && (forall i, r {:trigger r in s.refs[i]} {:trigger r in s0.refs[i]} |
          0 <= i < PAGES && !ChildRef(r, to, n) :: r in s.refs[i] <==> r in s0.refs[i])
  }

  /** The child has no table yet in its slot `j`. */
  ghost predicate NextFree(s: State, to: nat, n: nat, j: nat) {
    Sized(s) && (j < n ==> !Present(Dir(s, to + j)))
  }

  lemma ParentSlot(s0: State, s: State, from: nat, to: nat, n: nat, j: nat)
    requires CopyArgs(from, to, n) && j < n && Copied(s0, s, from, to, n, j, 0)
    ensures Sized(s) && Sized(s0) && Dir(s, from + j) == Dir(s0, from + j)
  {
    assert !InSlots(from + j, to, n);
  }

  /** The parent's pages are where they were all along. */
  lemma ParentUnmoved(s0: State, s: State, from: nat, to: nat, n: nat, j: nat, t: nat, p: Pg)
    requires Inv(s0) && CopyArgs(from, to, n) && Copied(s0, s, from, to, n, j, t)
    requires InSlots(p.d, from, n) && p.t < EntryCount(from)
    ensures OldPage(s0, s, p)
  {
    if from == 0 {
      KernelPage(s0, s, p.t);
      assert p == Pg(0, p.t);
    } else {
      assert IsUser(p) && !InSlots(p.d, to, n);
    }
  }

  lemma KernelPage(s0: State, s: State, t: nat)
    requires Inv(s0) && Sized(s) && LowSame(s0, s) && t < 160
    ensures Entry(s, Pg(0, t)) == Entry(s0, Pg(0, t))
    ensures Mapped(s0, Pg(0, t)) ==> View(s0, Pg(0, t)).Low? && Mapped(s, Pg(0, t)) && View(s, Pg(0, t)) == View(s0, Pg(0, t))
  {
    assert Dir(s, 0) == Dir(s0, 0);
  }

  lemma CopyHoleStep(s0: State, s: State, from: nat, to: nat, n: nat, j: nat, t: nat)
    requires Inv(s0) && CopyArgs(from, to, n) && Copied(s0, s, from, to, n, j, t) && j < n && t < EntryCount(from)
    requires !Present(Entry(s, Pg(from + j, t)))
    ensures Copied(s0, s, from, to, n, j, t + 1)
  {
    ParentUnmoved(s0, s, from, to, n, j, t, Pg(from + j, t));
    forall q | IsUser(q) && InSlots(q.d, to, n) ensures NewPage(s0, s, q, from, to, j, t + 1) {
      assert NewPage(s0, s, q, from, to, j, t);
      assert Reached(q, from, to, j, t + 1) <==> Reached(q, from, to, j, t) || q == Pg(to + j, t);
    }
  }

  lemma CopySlotStep(s0: State, s: State, from: nat, to: nat, n: nat, j: nat)
    requires CopyArgs(from, to, n) && Copied(s0, s, from, to, n, j, EntryCount(from)) && j < n
    ensures Copied(s0, s, from, to, n, j + 1, 0) && NextFree(s, to, n, j + 1)
  {
    forall q | IsUser(q) && InSlots(q.d, to, n) ensures NewPage(s0, s, q, from, to, j + 1, 0) {
      assert NewPage(s0, s, q, from, to, j, EntryCount(from));
      assert Reached(q, from, to, j, EntryCount(from)) <==> Reached(q, from, to, j + 1, 0);
    }
  }

  lemma CopySkipStep(s0: State, s: State, from: nat, to: nat, n: nat, j: nat)
    requires CopyArgs(from, to, n) && Copied(s0, s, from, to, n, j, 0) && j < n
    requires !Present(Dir(s, from + j))
    ensures Copied(s0, s, from, to, n, j + 1, 0) && NextFree(s, to, n, j + 1)
  {
    assert Dir(s0, from + j) == Dir(s, from + j);
    forall q | IsUser(q) && InSlots(q.d, to, n) ensures NewPage(s0, s, q, from, to, j + 1, 0) {
      assert NewPage(s0, s, q, from, to, j, 0);
      if q.d == to + j {
        assert !Mapped(s0, ParentPage(q, from, to));
      }
    }
  }

  /** Giving the child an empty table for its next slot. */
  lemma CopyTableStep(s0: State, s: State, from: nat, to: nat, n: nat, j: nat, i: nat)
    requires CopyArgs(from, to, n) && Copied(s0, s, from, to, n, j, 0) && j < n
    requires Inv(s) && !Present(Dir(s, to + j)) && i < PAGES && s.mp[i] == 0
    requires Present(Dir(s, from + j))
    ensures HasTable(AddTable(Take(s, i), to + j, i), from + j)
    ensures Inv(Take(s, i)) && Inv(AddTable(Take(s, i), to + j, i))
    ensures Copied(s0, AddTable(Take(s, i), to + j, i), from, to, n, j, 0)
    ensures HasTable(AddTable(Take(s, i), to + j, i), to + j)
  {
    TakeInv(s, i);
    AddTableInv(Take(s, i), to + j, i);
    FreeIsUnused(s, i);
    if 16 <= from { assert TableOk(s, from + j); }
    var s' := AddTable(Take(s, i), to + j, i);
    forall p | IsUser(p) && !InSlots(p.d, to, n) ensures OldPage(s0, s', p) {
      assert OldPage(s0, s, p);
    }
    forall q | IsUser(q) && InSlots(q.d, to, n) ensures NewPage(s0, s', q, from, to, j, 0) {
      assert NewPage(s0, s, q, from, to, j, 0);
    }
    forall k, r | 0 <= k < PAGES && !ChildRef(r, to, n) ensures r in s'.refs[k] <==> r in s0.refs[k] {
      assert r in s.refs[k] <==> r in s0.refs[k];
    }
  }

  lemma CopyEntryStep(s0: State, s: State, from: nat, to: nat, n: nat, j: nat, t: nat)
    requires Inv(s0) && CopyArgs(from, to, n) && Copied(s0, s, from, to, n, j, t) && j < n && t < EntryCount(from)
    requires CanShare(s, Pg(from + j, t), Pg(to + j, t))
    ensures Inv(Share(s, Pg(from + j, t), Pg(to + j, t)))
    ensures Copied(s0, Share(s, Pg(from + j, t), Pg(to + j, t)), from, to, n, j, t + 1)
  {
    var p, q := Pg(from + j, t), Pg(to + j, t);
    assert Sized(s0) && Sized(s) && HasTable(s, p.d) && HasTable(s, q.d) && LowSame(s0, s);
    hide Share, Inv, CanShare, Entry, Dir, View, LowSame, KernelOk, OldPage, NewPage, Mapped;
    var s' := Share(s, p, q);
    ParentUnmoved(s0, s, from, to, n, j, t, p);
    ShareInv(s, p, q);
    SharedSized(s, p, q);
    ShareEntries(s, p, q);
    ShareViews(s, p, q);
    ShareRefs(s, p, q);
    WriteProtectKeeps(Entry(s, p));
    WriteProtectKeeps(Entry(s0, p));
    LowSameTrans(s0, s, s');
    OldPagesKept(s0, s, s', p, q, to, n);
    NewPagesKept(s0, s, s', p, q, from, to, n, j, t);
  }

  lemma OldPagesKept(s0: State, s: State, s': State, p: Pg, q: Pg, to: nat, n: nat)
    requires Sized(s0) && Sized(s) && Sized(s') && IsUser(q) && InSlots(q.d, to, n)
    requires forall r | IsUser(r) && !InSlots(r.d, to, n) :: OldPage(s0, s, r)
    requires forall r | r != p && r != q && IsUser(r) :: Entry(s', r) == Entry(s, r)
    requires Entry(s', p) == Entry(s, p) || Entry(s', p) == WriteProtect(Entry(s, p))
    requires ViewsSame(s, s', {q})
    ensures forall r | IsUser(r) && !InSlots(r.d, to, n) :: OldPage(s0, s', r)
  {
    hide Entry, View, Mapped, OldPage;
    forall r | IsUser(r) && !InSlots(r.d, to, n) ensures OldPage(s0, s', r) {
      OldPageStep(s0, s, s', r);
    }
  }

  lemma NewPagesKept(s0: State, s: State, s': State, p: Pg, q: Pg, from: nat, to: nat, n: nat, j: nat, t: nat)
    requires Sized(s0) && Sized(s) && Sized(s') && CopyArgs(from, to, n) && j < n && t < EntryCount(from)
    requires p == Pg(from + j, t) && q == Pg(to + j, t) && OldPage(s0, s, p) && Present(Entry(s, p)) && Mapped(s, p)
    requires forall r | IsUser(r) && InSlots(r.d, to, n) :: NewPage(s0, s, r, from, to, j, t)
    requires forall r | r != p && r != q && IsUser(r) :: Entry(s', r) == Entry(s, r)
    requires ViewsSame(s, s', {q}) && Mapped(s', q) && Present(Entry(s', q)) && View(s', q) == View(s, p)
    ensures forall r | IsUser(r) && InSlots(r.d, to, n) :: NewPage(s0, s', r, from, to, j, t + 1)
  {
    hide Entry, View, Mapped, OldPage, NewPage;
    forall r | IsUser(r) && InSlots(r.d, to, n) ensures NewPage(s0, s', r, from, to, j, t + 1) {
      assert NewPage(s0, s, r, from, to, j, t);
      assert Reached(r, from, to, j, t + 1) <==> Reached(r, from, to, j, t) || r == q;
      if r == q { NewPageShared(s0, s, s', p, q, from, to, j, t); } else { NewPageStep(s0, s, s', r, from, to, j, t); }
    }
  }

  lemma SharedSized(s: State, p: Pg, q: Pg)
    requires CanShare(s, p, q)
    ensures Sized(Share(s, p, q))
  {
    ShareInv(s, p, q);
  }

  lemma OldPageStep(s0: State, s: State, s': State, r: Pg)
    requires Sized(s0) && Sized(s) && Sized(s') && OldPage(s0, s, r)
    requires Entry(s', r) == Entry(s, r) || Entry(s', r) == WriteProtect(Entry(s, r))
    requires Mapped(s, r) ==> Mapped(s', r) && View(s', r) == View(s, r)
    ensures OldPage(s0, s', r)
  {
    hide Entry, View;
    WriteProtectKeeps(Entry(s, r));
    WriteProtectKeeps(Entry(s0, r));
  }

  lemma NewPageStep(s0: State, s: State, s': State, r: Pg, from: nat, to: nat, j: nat, t: nat)
    requires Sized(s0) && Sized(s) && Sized(s') && to <= r.d && NewPage(s0, s, r, from, to, j, t)
    requires Reached(r, from, to, j, t + 1) <==> Reached(r, from, to, j, t)
    requires Entry(s', r) == Entry(s, r) && (Mapped(s, r) ==> View(s', r) == View(s, r))
    ensures NewPage(s0, s', r, from, to, j, t + 1)
  {
    hide Entry, View;
  }

  lemma NewPageShared(s0: State, s: State, s': State, p: Pg, q: Pg, from: nat, to: nat, j: nat, t: nat)
    requires Sized(s0) && Sized(s) && Sized(s') && to <= q.d && p == ParentPage(q, from, to)
    requires OldPage(s0, s, p) && Reached(q, from, to, j, t + 1) && Present(Entry(s, p))
    requires Mapped(s, p) && Mapped(s', q) && View(s', q) == View(s, p)
    ensures NewPage(s0, s', q, from, to, j, t + 1)
  {
    hide Entry, View;
  }

  lemma ShareRefs(s: State, p: Pg, q: Pg)
    requires CanShare(s, p, q)
    ensures Sized(Share(s, p, q))
    ensures forall i, r | 0 <= i < PAGES && r != Pte(q) :: r in Share(s, p, q).refs[i] <==> r in s.refs[i]
  {
    ShareEntries(s, p, q);
  }
}
