/** mm/memory.c: page allocation, page tables, sharing on fork and splitting on a write fault. */
module Memory {
  import opened Words
  import opened PagingState
  import opened PagingSteps
  import opened PagingEntries
  import opened PagingFaults
  import opened PagingRanges
  import opened AddressSpaces

  /** What `setup_paging` leaves in frame `f`: the directory, and two tables mapping 8 MB one to one. */
  function BootPage(f: nat): Page {
    if f == 0 then ZeroPage()[0 := 0x1007][1 := 0x2007]
    else if f == 1 || f == 2 then seq(1024, k requires 0 <= k < 1024 => (1024 * (f - 1) + k) * 4096 + 7)
    else ZeroPage()
  }

  /** Like `Local`, for a step that uses up the page `held`. */
  ghost predicate LocalBut(s: State, s': State, slot: nat, held: nat)
    requires Sized(s) && Sized(s')
  {
    && (forall i | 0 <= i < PAGES && i != held && Kernel in s.refs[i] :: Kernel in s'.refs[i])
    && (forall d: nat | 16 <= d < 1024 && d != slot :: Dir(s', d) == Dir(s, d))
  }

  /** What free_page does: it drops a use, it panics, or, for the address just past memory, it looks outside `mem_map`. */
  datatype Freeing = Dropped | Panicked | OutsideMap

  /** Frame `i`, free in `s`, was taken and is now used by nobody, for good. */
  ghost predicate LostPage(s: State, s': State, i: nat)
    requires Sized(s) && i < PAGES
  {
    s.mp[i] == 0 && s' == SetUses(Take(s, i), i, {Orphan})
  }

  lemma BootInv(s: State)
    requires Sized(s)
    requires forall f | 0 <= f < HIGH :: s.fr[f] == BootPage(f)
    requires forall i | 0 <= i < PAGES :: s.mp[i] == 0 && s.refs[i] == {}
    ensures Inv(s) && SpacesOf(s) == map[]
    ensures forall d | 16 <= d < 1024 :: !Present(Dir(s, d))
  {
    assert forall d | 16 <= d < 1024 :: Dir(s, d) == 0;
    assert Dir(s, 0) == 0x1007 && Dir(s, 1) == 0x2007;
    forall t | 0 <= t < 160 ensures FrameOf(Entry(s, Pg(0, t))) < LOW {
      assert Entry(s, Pg(0, t)) == BootPage(1)[t];
    }
    assert forall i | 0 <= i < PAGES :: FrameOk(s, i);
  }

  /** Page `t` of the kernel's first slot shows frame `t`. */
  ghost predicate KernelMaps(s: State, t: nat) {
    Sized(s) && t < 1024 && Mapped(s, Pg(0, t)) && View(s, Pg(0, t)) == Low(t)
  }

  lemma BootMaps(s: State)
    requires Sized(s) && forall f | 0 <= f < HIGH :: s.fr[f] == BootPage(f)
    ensures forall t: nat | 4096 * t < 0xA_0000 :: KernelMaps(s, t)
  {
    assert Dir(s, 0) == 0x1007;
    forall t: nat | 4096 * t < 0xA_0000 ensures KernelMaps(s, t) {
      assert Entry(s, Pg(0, t)) == BootPage(1)[t] == 4096 * t + 7;
    }
  }

  class Mm {
    const frames: array<Page>   // physical memory; frame 0 is the page directory
    const memMap: array<nat>    // `unsigned short mem_map[PAGING_PAGES]`
    ghost var refs: seq<set<Ref>>

    ghost function St(): State
      reads this, frames, memMap
    {
      State(frames[..], memMap[..], refs)
    }

    ghost predicate Valid()
      reads this, frames, memMap
    {
      frames.Length == HIGH && memMap.Length == PAGES && Inv(St())
    }

    /** The user's view of all of memory: the contents of every user page. */
    ghost function Spaces(): Spaces
      requires Valid()
      reads this, frames, memMap
    {
      SpacesOf(St())
    }

    /** The machine as boot leaves it: 8 MB mapped one to one through two tables, no page in use. */
    constructor ()
      ensures Valid() && fresh(frames) && fresh(memMap)
      ensures Spaces() == map[]
      ensures forall i | 0 <= i < PAGES :: St().mp[i] == 0
      ensures forall d | 16 <= d < 1024 :: !Present(Dir(St(), d))
      ensures forall t: nat | 4096 * t < 0xA_0000 :: KernelMaps(St(), t)
    {
      frames := new Page[HIGH](f requires f >= 0 => BootPage(f));
      memMap := new nat[PAGES](i => 0);
      refs := seq(PAGES, i => {});
      new;
      BootInv(St());
      BootMaps(St());
    }

    /** Takes the last free page, clears it, and returns its frame number; 0 when no page is free. */
    method GetFreePage() returns (page: nat)
      requires Valid()
      modifies `refs, frames, memMap
      ensures Valid()
      ensures page == 0 ==> St() == old(St()) && forall i | 0 <= i < PAGES :: St().mp[i] != 0
      ensures page != 0 ==> LOW <= page < HIGH && old(St()).mp[page - LOW] == 0 && St() == Take(old(St()), page - LOW)
      ensures page != 0 ==> old(refs)[page - LOW] == {}
      ensures page != 0 ==> forall i | page - LOW < i < PAGES :: old(St()).mp[i] != 0
    {
      var i := PAGES;
      while i > 0
        invariant 0 <= i <= PAGES
        invariant forall j | i <= j < PAGES :: memMap[j] != 0
        invariant St() == old(St())
      {
        i := i - 1;
        if memMap[i] == 0 {
          TakeInv(St(), i);
          FreeIsUnused(St(), i);
          memMap[i] := 1;
          frames[LOW + i] := ZeroPage();
          refs := refs[i := {Kernel}];
          assert St() == Take(old(St()), i);
          return LOW + i;
        }
      }
      return 0;
    }

    /** Drops one use of a page. Low memory is not counted. */
    method FreePage(page: nat) returns (r: Freeing)
      requires memMap.Length == PAGES && forall i | 0 <= i < PAGES :: memMap[i] < 0x1_0000
      modifies memMap
      ensures r.OutsideMap? <==> page == HIGH
      ensures r.Panicked? <==> page > HIGH || (LOW <= page < HIGH && old(memMap[page - LOW]) == 0)
      ensures memMap[..] == if LOW <= page < HIGH && r.Dropped?
                            then old(memMap[..])[page - LOW := old(memMap[page - LOW]) - 1] else old(memMap[..])
    {
      if page < LOW { return Dropped; }
      if page > HIGH { return Panicked; }
      if page == HIGH { return OutsideMap; }
      var i := page - LOW;
      var count := memMap[i];
      memMap[i] := (count + 0xffff) % 0x1_0000;
      if count != 0 { return Dropped; }
      memMap[i] := 0;
      return Panicked;
    }

    lemma CountsFit()
      requires Valid()
      ensures forall i | 0 <= i < PAGES :: memMap[i] <= 63
    {
      forall i | 0 <= i < PAGES ensures memMap[i] <= 63 {
        CountBound(St(), i);
      }
    }

    /** `free_page` on a page the kernel holds. */
    method FreeHeld(page: nat)
      requires Valid() && LOW <= page < HIGH && Kernel in refs[page - LOW]
      modifies `refs, memMap
      ensures Valid() && St() == Drop(old(St()), page - LOW)
    {
      ghost var s := St();
      DropInv(s, page - LOW);
      CountsFit();
      var r := FreePage(page);
      assert r.Dropped?;
      refs := refs[page - LOW := {}];
      assert memMap[..] == s.mp[page - LOW := 0];
    }

    /** One turn of the inner loop of `free_page_tables`. */
    method FreeEntry(d: nat, t: nat)
      requires Valid() && 16 <= d < 1024 && t < 1024 && HasTable(St(), d)
      modifies `refs, frames, memMap
      ensures Valid() && St() == Clear(old(St()), Pg(d, t))
    {
      ghost var s := St();
      ghost var p := Pg(d, t);
      var table := FrameOf(frames[0][d]);
      var entry := frames[table][t];
      hide Clear, Inv, OnlyEntry;
      ClearInv(s, p);
      ClearWords(s, p);
      CountsFit();
      hide HasTable, Entry, Dir, IsUser;
      if Present(entry) { UnusePage(FrameOf(entry), p); }
      frames[table] := frames[table][t := 0];
      assert frames[..] == s.fr[table := s.fr[table][t := 0]];
    }

    method UnusePage(page: nat, ghost p: Pg)
      requires memMap.Length == PAGES == |refs| && page < HIGH && forall i | 0 <= i < PAGES :: memMap[i] <= 63
      requires page >= LOW ==> memMap[page - LOW] > 0
      modifies `refs, memMap
      ensures if page < LOW then refs == old(refs) && memMap[..] == old(memMap[..])
              else refs == old(refs)[page - LOW := old(refs)[page - LOW] - {Pte(p)}]
                   && memMap[..] == old(memMap[..])[page - LOW := old(memMap[page - LOW]) - 1]
    {
      var r := FreePage(page);
      assert r.Dropped?;
      if page >= LOW {
        refs := refs[page - LOW := refs[page - LOW] - {Pte(p)}];
      }
    }

    /** Frees the pages and tables of `n` directory slots. */
    method FreePageTables(from: Word, size: Word) returns (panicked: bool)
      requires Valid()
      requires from != 0 && from % SLOT_SIZE == 0 ==> 16 <= from / SLOT_SIZE && from / SLOT_SIZE + SlotsFor(size) <= 1024
      modifies `refs, frames, memMap
      ensures Valid()
      ensures panicked <==> from % SLOT_SIZE != 0 || from == 0
      ensures panicked ==> St() == old(St())
      ensures !panicked ==> Freed(old(St()), St(), from / SLOT_SIZE, from / SLOT_SIZE + SlotsFor(size), 0)
      ensures !panicked ==> Spaces() == EagerFree(old(Spaces()), from / SLOT_SIZE, SlotsFor(size))
    {
      if from % SLOT_SIZE != 0 { return true; }
      if from == 0 { return true; }
      ghost var s0 := St();
      var base := from / SLOT_SIZE;
      var n := SlotsFor(size);
      FreedStart(s0, base);
      assert Inv(s0) && frames.Length == HIGH;
      hide Inv, Freed, SlotsFor, EagerFree, SpacesOf;
      var d := base;
      while d < base + n
        invariant base <= d <= base + n
        invariant Valid() && Freed(s0, St(), base, d, 0)
      {
        if !Present(frames[0][d]) {
          FreeSkipStep(s0, St(), base, d);
        } else {
          FreeTable(s0, base, d);
        }
        d := d + 1;
      }
      FreedSpaces(s0, St(), base, n);
      return false;
    }

    method FreeTable(ghost s0: State, base: nat, d: nat)
      requires Valid() && Inv(s0) && 16 <= base <= d < 1024 && Present(frames[0][d]) && Freed(s0, St(), base, d, 0)
      modifies `refs, frames, memMap
      ensures Valid() && Freed(s0, St(), base, d + 1, 0)
    {
      assert TableOk(St(), d);
      var t := 0;
      while t < 1024
        invariant 0 <= t <= 1024
        invariant Valid() && Freed(s0, St(), base, d, t) && HasTable(St(), d)
      {
        FreeEntryStep(s0, St(), base, d, t);
        FreeEntry(d, t);
        t := t + 1;
      }
      ghost var s := St();
      FreeTableStep(s0, s, base, d);
      CountsFit();
      var i := FrameOf(frames[0][d]) - LOW;
      var r := FreePage(FrameOf(frames[0][d]));
      assert r.Dropped?;
      refs := refs[i := {}];
      frames[0] := frames[0][d := 0];
      assert St() == DropTable(s, d);
    }

    /** Copies `n` slots of page tables, sharing the pages read-only; -1 (false) when memory runs out. */
    method CopyPageTables(from: Word, to: Word, size: Word) returns (ok: bool, panicked: bool)
      requires Valid()
      requires from % SLOT_SIZE == 0 && to % SLOT_SIZE == 0 ==>
                 && CopyArgs(from / SLOT_SIZE, to / SLOT_SIZE, SlotsFor(size))
                 && forall d | InSlots(d, to / SLOT_SIZE, SlotsFor(size)) :: !Present(Dir(St(), d))
      modifies `refs, frames, memMap
      ensures Valid()
      ensures panicked <==> from % SLOT_SIZE != 0 || to % SLOT_SIZE != 0
      ensures panicked ==> !ok && St() == old(St())
      ensures !panicked ==> CopyEnded(old(St()), St(), from / SLOT_SIZE, to / SLOT_SIZE, SlotsFor(size), ok)
    {
      if from % SLOT_SIZE != 0 || to % SLOT_SIZE != 0 { return false, true; }
      ok := CopySlots(from / SLOT_SIZE, to / SLOT_SIZE, SlotsFor(size));
      panicked := false;
    }

    /** The outer loop of `copy_page_tables`. It takes a frame for each table of the parent. */
    method CopySlots(f: nat, g: nat, n: nat) returns (ok: bool)
      requires Valid() && CopyArgs(f, g, n) && forall d | InSlots(d, g, n) :: !Present(Dir(St(), d))
      modifies `refs, frames, memMap
      ensures Valid() && CopyEnded(old(St()), St(), f, g, n, ok)
    {
      ghost var s0 := St();
      assert Inv(s0);
      hide *;
      GoingStart(s0, f, g, n);
      var j := 0;
      while j < n
        invariant 0 <= j <= n && Valid() && CopyGoing(s0, St(), f, g, n, j)
      {
        ghost var s := St();
        GoingParts(s0, s, f, g, n, j);
        ok := CopySlot(s0, f, g, n, j);
        if !ok {
          GoingEnds(s0, s, St(), f, g, n, j);
          return;
        }
        GoingNext(s0, s, St(), f, g, n, j);
        j := j + 1;
      }
      GoingDone(s0, St(), f, g, n);
      return true;
    }

    method CopySlot(ghost s0: State, f: nat, g: nat, n: nat, j: nat) returns (ok: bool)
      requires Valid() && Inv(s0) && CopyArgs(f, g, n) && j < n && Copied(s0, St(), f, g, n, j, 0)
      requires NextFree(St(), g, n, j)
      modifies `refs, frames, memMap
      ensures Valid()
      ensures ok ==> Copied(s0, St(), f, g, n, j + 1, 0) && NextFree(St(), g, n, j + 1)
      ensures !ok ==> Copied(s0, St(), f, g, n, j, 0) && FreeCount(old(St()).mp) == 0 && Present(Dir(s0, f + j))
      ensures ok ==> FreeCount(St().mp) == FreeCount(old(St()).mp) - (if Present(Dir(s0, f + j)) then 1 else 0)
    {
      ghost var s := St();
      ParentSlot(s0, s, f, g, n, j);
      assert frames[0][g + j] == Dir(s, g + j) && frames[0][f + j] == Dir(s, f + j);
      assert !Present(frames[0][g + j]);   // else: panic, the child's slot already exists
      if !Present(frames[0][f + j]) {
        CopySkipStep(s0, s, f, g, n, j);
        return true;
      }
      hide Copied, Inv;
      NoneFree(s.mp);
      var table := GetFreePage();
      if table == 0 {
        return false;
      }
      TakeCounts(s, table - LOW);
      CopyTableStep(s0, s, f, g, n, j, table - LOW);
      AddTableCounts(Take(s, table - LOW), g + j, table - LOW);
      MakeTable(s, g + j, table);
      CopyTable(s0, f, g, n, j);
      return true;
    }

    /** A fresh frame becomes the page table of a slot. */
    method MakeTable(ghost s: State, slot: nat, table: nat)
      requires Valid() && Sized(s) && slot < 1024 && LOW <= table < HIGH && St() == Take(s, table - LOW)
      requires Inv(AddTable(Take(s, table - LOW), slot, table - LOW))
      modifies `refs, frames
      ensures Valid() && St() == AddTable(Take(s, table - LOW), slot, table - LOW)
    {
      hide Inv;
      frames[0] := frames[0][slot := table * 4096 + 7];
      refs := refs[table - LOW := {Table(slot)}];
      Became(AddTable(Take(s, table - LOW), slot, table - LOW));
    }

    method CopyTable(ghost s0: State, f: nat, g: nat, n: nat, j: nat)
      requires Valid() && Inv(s0) && CopyArgs(f, g, n) && j < n
      requires Copied(s0, St(), f, g, n, j, 0) && HasTable(St(), f + j) && HasTable(St(), g + j)
      modifies `refs, frames, memMap
      ensures Valid() && Copied(s0, St(), f, g, n, j + 1, 0) && NextFree(St(), g, n, j + 1)
      ensures FreeCount(St().mp) == FreeCount(old(St()).mp)
    {
      var nr := if f == 0 then 0xA0 else 1024;
      var t := 0;
      assert Sized(St());
      hide Copied, Inv;
      while t < nr
        invariant 0 <= t <= nr
        invariant Valid() && Copied(s0, St(), f, g, n, j, t) && Sized(St())
        invariant HasTable(St(), f + j) && HasTable(St(), g + j) && FreeCount(St().mp) == FreeCount(old(St()).mp)
      {
        CopyEntry(s0, f, g, n, j, t);
        t := t + 1;
      }
      CopySlotStep(s0, St(), f, g, n, j);
    }

    /** One turn of the inner loop of `copy_page_tables`. */
    method CopyEntry(ghost s0: State, f: nat, g: nat, n: nat, j: nat, t: nat)
      requires Valid() && Inv(s0) && CopyArgs(f, g, n) && j < n && t < EntryCount(f) <= 1024
      requires Copied(s0, St(), f, g, n, j, t) && HasTable(St(), f + j) && HasTable(St(), g + j)
      modifies `refs, frames, memMap
      ensures Valid() && Copied(s0, St(), f, g, n, j, t + 1) && Sized(St())
      ensures HasTable(St(), f + j) && HasTable(St(), g + j) && FreeCount(St().mp) == FreeCount(old(St()).mp)
    {
      hide *;
      ghost var s := St();
      EntryAt(f + j, t);
      if !Present(frames[FrameOf(frames[0][f + j])][t]) {
        CopyHoleStep(s0, s, f, g, n, j, t);
      } else {
        CopyReady(s0, s, f, g, n, j, t);
        ShareStep(s0, s, f, g, n, j, t);
        ShareEntry(f + j, g + j, t);
      }
    }

    /** Where the entries of a table are. */
    lemma EntryAt(d: nat, t: nat)
      requires Valid() && t < 1024 && HasTable(St(), d)
      ensures d < 1024 && frames.Length == HIGH && FrameOf(frames[0][d]) < HIGH && Inv(St()) && Sized(St())
      ensures Entry(St(), Pg(d, t)) == frames[FrameOf(frames[0][d])][t]
    {
    }

    method ShareEntry(f: nat, g: nat, t: nat)
      requires Valid() && CanShare(St(), Pg(f, t), Pg(g, t))
      modifies `refs, frames, memMap
      ensures Valid() && St() == Share(old(St()), Pg(f, t), Pg(g, t))
    {
      hide *;
      ghost var s, p, q := St(), Pg(f, t), Pg(g, t);
      SharePlan(f, g, t);
      var fromTable, toTable := FrameOf(frames[0][f]), FrameOf(frames[0][g]);
      var page := WriteProtect(frames[fromTable][t]);
      frames[toTable] := frames[toTable][t := page];
      if page > LOW * 4096 {
        frames[fromTable] := frames[fromTable][t := page];
        var i := page / 4096 - LOW;
        memMap[i] := (memMap[i] + 1) % 0x1_0000;
        refs := refs[i := refs[i] + {Pte(q)}];
      }
      Became(Share(s, p, q));
    }

    /** What sharing an entry stores, in terms of the arrays. */
    lemma SharePlan(f: nat, g: nat, t: nat)
      requires Valid() && CanShare(St(), Pg(f, t), Pg(g, t))
      ensures frames.Length == HIGH && memMap.Length == PAGES == |refs| && f < 1024 && g < 1024 && t < 1024
      ensures FrameOf(frames[0][f]) < HIGH && FrameOf(frames[0][g]) < HIGH
      ensures Sized(St()) && HasTable(St(), f) && HasTable(St(), g) && Inv(Share(St(), Pg(f, t), Pg(g, t)))
      ensures var tp, tq := FrameOf(frames[0][f]), FrameOf(frames[0][g]);
              var w := WriteProtect(frames[tp][t]);
              var fr := frames[..][tq := frames[tq][t := w]];
              if w > LOW * 4096 then
                && 0 <= w / 4096 - LOW < PAGES && memMap[w / 4096 - LOW] < 63
                && Share(St(), Pg(f, t), Pg(g, t))
                   == State(fr[tp := fr[tp][t := w]], memMap[..][w / 4096 - LOW := memMap[w / 4096 - LOW] + 1],
                            refs[w / 4096 - LOW := refs[w / 4096 - LOW] + {Pte(Pg(g, t))}])
              else
                Share(St(), Pg(f, t), Pg(g, t)) == State(fr, memMap[..], refs)
    {
      ghost var s, p, q := St(), Pg(f, t), Pg(g, t);
      ShareWords(s, p, q);
      ShareInv(s, p, q);
      SharedSized(s, p, q);
      WriteProtectKeeps(Entry(s, p));
      EntryAt(f, t);
      assert HasTable(s, f) && HasTable(s, g);
      hide Inv, Share, CanShare, Entry;
    }

    /** The arrays hold the state `s`. */
    lemma Became(s: State)
      requires frames.Length == HIGH && memMap.Length == PAGES && Inv(s)
      requires frames[..] == s.fr && memMap[..] == s.mp && refs == s.refs
      ensures Valid() && St() == s
    {
    }

    /** Maps a page the kernel holds at a user address; 0 when there is no memory for a page table. */
    method PutPage(page: nat, address: Word) returns (r: nat)
      requires Valid() && IsUser(PageOf(address)) && !Present(Entry(St(), PageOf(address)))
      requires LOW <= page < HIGH && Kernel in St().refs[page - LOW]
      modifies `refs, frames, memMap
      ensures Valid()
      ensures r == 0 ==> St() == old(St()) && forall i | 0 <= i < PAGES :: St().mp[i] != 0
      ensures r == 0 <==> !Present(Dir(old(St()), address / SLOT_SIZE)) && FreeCount(old(St()).mp) == 0
      ensures r != 0 ==> r == page && LowSame(old(St()), St())
      ensures r != 0 ==> LocalBut(old(St()), St(), address / SLOT_SIZE, page - LOW)
      ensures r != 0 ==> Entry(St(), PageOf(address)) == UserEntry(page)
      ensures r != 0 ==> Spaces() == old(Spaces())[PageOf(address) := Own(old(frames[page]))]
    {
      ghost var s := St();
      var slot, t := address / SLOT_SIZE, address / 4096 % 1024;
      var p := Pg(slot, t);
      assert p == PageOf(address);
      hide Inv, Entry, Dir, HasTable, Present, SpacesOf, LowSame, Local, LocalBut, MapHeld, IsUser, PageOf, FreeCount;
      var table := FindTable(slot, page - LOW);
      if table == 0 { return 0; }
      ghost var mid := St();
      MapResult(s, mid, p, page - LOW);
      MapPage(p, table, page);
      return page;
    }

    method MapPage(p: Pg, table: nat, page: nat)
      requires Valid() && IsUser(p) && HasTable(St(), p.d) && !Present(Entry(St(), p)) && table == FrameOf(Dir(St(), p.d))
      requires LOW <= page < HIGH && Kernel in St().refs[page - LOW]
      modifies `refs, frames
      ensures Valid() && St() == MapHeld(old(St()), p, page - LOW)
    {
      ghost var s := St();
      hide Inv, Entry, Dir, HasTable, Present, MapHeld, IsUser;
      MapPlan(p, page - LOW);
      frames[table] := frames[table][p.t := page * 4096 + 7];
      refs := refs[page - LOW := {Pte(p)}];
      Became(MapHeld(s, p, page - LOW));
    }

    /** What mapping a page the kernel holds stores, in terms of the arrays. */
    lemma MapPlan(p: Pg, i: nat)
      requires Valid() && IsUser(p) && HasTable(St(), p.d) && !Present(Entry(St(), p))
      requires i < PAGES && Kernel in St().refs[i]
      ensures Sized(St()) && FrameOf(Dir(St(), p.d)) < HIGH && p.t < 1024 && Inv(MapHeld(St(), p, i))
      ensures var table := FrameOf(Dir(St(), p.d));
              MapHeld(St(), p, i)
              == State(frames[..][table := frames[table][p.t := (LOW + i) * 4096 + 7]], memMap[..], refs[i := {Pte(p)}])
    {
      MapHeldInv(St(), p, i);
      hide Inv, Entry, Dir;
    }

    /** The page table of a slot, made if it is missing; `held` is some frame the kernel holds. */
    method FindTable(slot: nat, ghost held: nat) returns (table: nat)
      requires Valid() && 16 <= slot < 1024 && held < PAGES && Kernel in St().refs[held]
      modifies `refs, frames, memMap
      ensures Valid()
      ensures table == 0 ==> St() == old(St()) && forall i | 0 <= i < PAGES :: St().mp[i] != 0
      ensures table == 0 <==> !Present(Dir(old(St()), slot)) && FreeCount(old(St()).mp) == 0
      ensures table != 0 ==> HasTable(St(), slot) && table == FrameOf(Dir(St(), slot)) && table < HIGH
      ensures table != 0 ==> LowSame(old(St()), St()) && Spaces() == old(Spaces())
      ensures table != 0 ==> Local(old(St()), St(), slot)
      ensures table != 0 ==> forall p | IsUser(p) :: Entry(St(), p) == Entry(old(St()), p)
      ensures table != 0 ==> Kernel in St().refs[held] && frames[LOW + held] == old(frames[LOW + held])
    {
      ghost var s := St();
      HeldAlone(s, held, Kernel);
      if Present(frames[0][slot]) {
        assert TableOk(s, slot);
        return FrameOf(frames[0][slot]);
      }
      table := GetFreePage();
      NoneFree(s.mp);
      if table == 0 { return; }
      TakeInv(s, table - LOW);
      AddTableInv(Take(s, table - LOW), slot, table - LOW);
      UserEntryDecodes(table);
      frames[0] := frames[0][slot := table * 4096 + 7];
      refs := refs[table - LOW := {Table(slot)}];
      assert St() == AddTable(Take(s, table - LOW), slot, table - LOW);
      SpacesSame(s, St());
    }

    /** A missing-page fault. A page is lost if and only if exactly one frame is free and the slot has no table: the page
        takes the frame, and the table finds none. */
    method DoNoPage(address: Word) returns (ok: bool)
      requires Valid() && IsUser(PageOf(address)) && !Present(Entry(St(), PageOf(address)))
      modifies `refs, frames, memMap
      ensures Valid() && LowSame(old(St()), St())
      ensures Local(old(St()), St(), address / SLOT_SIZE)
      ensures ok ==> Spaces() == EagerTouch(old(Spaces()), PageOf(address))
      ensures ok ==> Mapped(St(), PageOf(address)) && Writable(Entry(St(), PageOf(address)))
      ensures !ok ==> Spaces() == old(Spaces()) && forall i | 0 <= i < PAGES :: St().mp[i] != 0
      ensures ok <==> PageNeed(old(St()), PageOf(address), false) <= FreeCount(old(St()).mp)
      ensures !ok ==> if FreeCount(old(St()).mp) == 0 then St() == old(St())
                      else exists i | 0 <= i < PAGES :: LostPage(old(St()), St(), i)
    {
      ghost var s := St();
      ghost var p := PageOf(address);
      NoneFree(s.mp);
      assert Inv(s);
      hide Inv, Entry, Dir, Present, Mapped, SpacesOf, LowSame, Local, LocalBut, Take, SetUses, FreeCount, EagerTouch;
      var page := GetFreePage();
      if page == 0 {
        LocalSelf(s, p.d);
        return false;
      }
      ghost var mid := St();
      TakenPage(s, page - LOW, p);
      var r := PutPage(page, address);
      if r != 0 {
        GotPage(s, mid, St(), p, page - LOW);
        return true;
      }
      LostOne(s, mid, p, page - LOW);
      refs := refs[page - LOW := {Orphan}];
      Became(SetUses(mid, page - LOW, {Orphan}));
      return false;
    }

    /** Makes a present page writable, copying it unless it is the frame's only use. False: out of memory. */
    method UnWpPage(d: nat, t: nat) returns (ok: bool)
      requires Valid() && IsUser(Pg(d, t)) && Present(Entry(St(), Pg(d, t)))
      modifies `refs, frames, memMap
      ensures Valid() && LowSame(old(St()), St())
      ensures Local(old(St()), St(), d)
      ensures Mapped(old(St()), Pg(d, t))
      ensures ok ==> Mapped(St(), Pg(d, t)) && Writable(Entry(St(), Pg(d, t)))
      ensures ok ==> Spaces() == old(Spaces())[Pg(d, t) := Own(Data(View(old(St()), Pg(d, t)), old(frames[..LOW])))]
      ensures !ok ==> St() == old(St()) && forall i | 0 <= i < PAGES :: St().mp[i] != 0
      ensures ok <==> PageNeed(old(St()), Pg(d, t), true) <= FreeCount(old(St()).mp)
    {
      WithTable(d, t);
      hide Inv, Spaces, LowSame, Local, View;
      var table := FrameOf(frames[0][d]);
      var oldPage := FrameOf(frames[table][t]);
      if oldPage >= LOW && memMap[oldPage - LOW] == 1 {
        GrantPage(d, t, table);
        return true;
      }
      ok := CopyPage(d, t, table, oldPage);
    }

    lemma WithTable(d: nat, t: nat)
      requires Valid() && IsUser(Pg(d, t)) && Present(Entry(St(), Pg(d, t)))
      ensures Sized(St()) && LOW <= FrameOf(Dir(St(), d)) < HIGH && Mapped(St(), Pg(d, t))
      ensures Entry(St(), Pg(d, t)) == frames[FrameOf(frames[0][d])][t]
    {
      assert EntryOk(St(), Pg(d, t)) && TableOk(St(), d);
    }

    /** The page has no other user. */
    method GrantPage(d: nat, t: nat, table: nat)
      requires Valid() && IsUser(Pg(d, t)) && Mapped(St(), Pg(d, t)) && table == FrameOf(Dir(St(), d))
      requires FrameOf(Entry(St(), Pg(d, t))) >= LOW && memMap[FrameOf(Entry(St(), Pg(d, t))) - LOW] == 1
      modifies `refs, frames, memMap
      ensures Valid() && LowSame(old(St()), St()) && Local(old(St()), St(), d)
      ensures Mapped(St(), Pg(d, t)) && Writable(Entry(St(), Pg(d, t)))
      ensures Spaces() == old(Spaces())[Pg(d, t) := Own(Data(View(old(St()), Pg(d, t)), old(frames[..LOW])))]
    {
      ghost var s := St();
      ghost var p := Pg(d, t);
      GrantWriteInv(s, p);
      GrantKeeps(Entry(s, p));
      hide Inv;
      frames[table] := frames[table][t := Grant(frames[table][t])];
      assert St() == GrantWrite(s, p);
      SpacesSame(s, St());
    }

    /** The page is shared, or lies in low memory. */
    method CopyPage(d: nat, t: nat, table: nat, oldPage: nat) returns (ok: bool)
      requires Valid() && IsUser(Pg(d, t)) && Mapped(St(), Pg(d, t))
      requires table == FrameOf(Dir(St(), d)) && oldPage == FrameOf(Entry(St(), Pg(d, t)))
      modifies `refs, frames, memMap
      ensures Valid() && LowSame(old(St()), St()) && Local(old(St()), St(), d)
      ensures ok ==> Mapped(St(), Pg(d, t)) && Writable(Entry(St(), Pg(d, t)))
      ensures ok ==> Spaces() == old(Spaces())[Pg(d, t) := Own(Data(View(old(St()), Pg(d, t)), old(frames[..LOW])))]
      ensures !ok ==> St() == old(St()) && forall i | 0 <= i < PAGES :: St().mp[i] != 0
      ensures ok <==> FreeCount(old(St()).mp) > 0
    {
      ghost var s := St();
      ghost var p := Pg(d, t);
      NoneFree(s.mp);
      assert Sized(s);
      hide Inv, Entry, Dir, View, Mapped, LowSame, Local, OnlyEntry, CanSplit, SpacesOf, Take;
      var newPage := GetFreePage();
      if newPage == 0 {
        LocalSelf(s, d);
        return false;
      }
      ghost var mid := St();
      TakenFor(s, newPage - LOW, p);
      SplitPage(mid, Pg(d, t), table, oldPage, newPage);
      SplitDone(s, mid, St(), p, newPage - LOW);
      return true;
    }

    /** The second half of `un_wp_page`: leave the old page and use a copy of it in `newPage`. */
    method SplitPage(ghost s: State, p: Pg, table: nat, oldPage: nat, newPage: nat)
      requires Valid() && s == St() && LOW <= newPage < HIGH && CanSplit(s, p, newPage - LOW)
      requires table == FrameOf(Dir(s, p.d)) && oldPage == FrameOf(Entry(s, p))
      modifies `refs, frames, memMap
      ensures Valid() && St() == Split(s, p, newPage - LOW) && OnlyEntry(s, St(), p)
      ensures forall i | 0 <= i < PAGES && i != newPage - LOW && Kernel in s.refs[i] :: Kernel in refs[i]
      ensures Mapped(St(), p) && Writable(Entry(St(), p)) && View(St(), p) == Own(s.fr[oldPage])
    {
      hide *;
      SplitPlan(p, newPage - LOW);
      SplitResult(s, p, newPage - LOW);
      Leave(oldPage, p);
      frames[table] := frames[table][p.t := newPage * 4096 + 7];
      frames[newPage] := frames[oldPage];
      refs := refs[newPage - LOW := {Pte(p)}];
      Became(Split(s, p, newPage - LOW));
    }

    /** What a split stores, in terms of the arrays. */
    lemma SplitPlan(p: Pg, i: nat)
      requires Valid() && CanSplit(St(), p, i)
      ensures frames.Length == HIGH && memMap.Length == PAGES == |refs| && i < PAGES && LOW + i < HIGH && p.t < 1024
      ensures (LOW + i) * 4096 + 7 < WORD_LIMIT && Sized(St()) && Mapped(St(), p)
      ensures var table, was := FrameOf(Dir(St(), p.d)), FrameOf(Entry(St(), p));
              && table < HIGH && was < HIGH && table != was && table != LOW + i && was != LOW + i
              && (was >= LOW ==> 1 <= memMap[was - LOW] <= 63)
              && Split(St(), p, i).fr
                 == frames[..][table := frames[table][p.t := (LOW + i) * 4096 + 7]][LOW + i := frames[was]]
              && (if was >= LOW then
                    && Split(St(), p, i).mp == memMap[..][was - LOW := memMap[was - LOW] - 1]
                    && Split(St(), p, i).refs == refs[was - LOW := refs[was - LOW] - {Pte(p)}][i := {Pte(p)}]
                  else
                    Split(St(), p, i).mp == memMap[..] && Split(St(), p, i).refs == refs[i := {Pte(p)}])
    {
      ghost var s := St();
      SplitWords(s, p, i);
      hide Split, Inv, Entry, Dir;
    }

    /** One use of a counted page less, without looking at the count. */
    method Leave(page: nat, ghost p: Pg)
      requires memMap.Length == PAGES == |refs| && page < HIGH && (page >= LOW ==> 1 <= memMap[page - LOW] <= 63)
      modifies `refs, memMap
      ensures |refs| == PAGES
      ensures if page < LOW then refs == old(refs) && memMap[..] == old(memMap[..])
              else refs == old(refs)[page - LOW := old(refs)[page - LOW] - {Pte(p)}]
                   && memMap[..] == old(memMap[..])[page - LOW := old(memMap[page - LOW]) - 1]
    {
      if page >= LOW {
        memMap[page - LOW] := (memMap[page - LOW] + 0xffff) % 0x1_0000;
        refs := refs[page - LOW := refs[page - LOW] - {Pte(p)}];
      }
    }

    /** A write fault: find the entry and make it writable. */
    method DoWpPage(address: Word) returns (ok: bool)
      requires Valid() && IsUser(PageOf(address)) && Present(Entry(St(), PageOf(address)))
      modifies `refs, frames, memMap
      ensures Valid() && LowSame(old(St()), St())
      ensures Local(old(St()), St(), address / SLOT_SIZE)
      ensures Mapped(old(St()), PageOf(address))
      ensures ok ==> Mapped(St(), PageOf(address)) && Writable(Entry(St(), PageOf(address)))
      ensures ok ==> Spaces() == EagerOwn(old(Spaces()), old(frames[..LOW]), PageOf(address))
      ensures !ok ==> St() == old(St()) && forall i | 0 <= i < PAGES :: St().mp[i] != 0
      ensures ok <==> PageNeed(old(St()), PageOf(address), true) <= FreeCount(old(St()).mp)
    {
      PreparedOwn(St(), PageOf(address), frames[..LOW]);
      ok := UnWpPage(address / SLOT_SIZE, address / 4096 % 1024);
    }

    /** Before the kernel stores to user memory: the processor ignores write protection for the kernel,
        so a present read-only page is split beforehand. A missing page is left to the missing-page fault. */
    method WriteVerify(address: Word) returns (ok: bool)
      requires Valid() && IsUser(PageOf(address))
      modifies `refs, frames, memMap
      ensures Valid() && LowSame(old(St()), St())
      ensures Local(old(St()), St(), address / SLOT_SIZE)
      ensures ok ==> (Present(Entry(St(), PageOf(address))) <==> Present(Entry(old(St()), PageOf(address))))
      ensures ok && Present(Entry(St(), PageOf(address))) ==>
                Mapped(St(), PageOf(address)) && Writable(Entry(St(), PageOf(address)))
      ensures ok ==> Spaces() == Prepared(old(Spaces()), old(frames[..LOW]), PageOf(address))
      ensures !ok ==> Spaces() == old(Spaces()) && forall i | 0 <= i < PAGES :: St().mp[i] != 0
      ensures if Present(Entry(old(St()), PageOf(address)))
              then ok <==> PageNeed(old(St()), PageOf(address), true) <= FreeCount(old(St()).mp)
              else ok && St() == old(St())
    {
      ghost var s, p := St(), PageOf(address);
      ghost var low := frames[..LOW];
      var slot, t := address / SLOT_SIZE, address / 4096 % 1024;
      PreparedOwn(s, p, low);
      if !Present(frames[0][slot]) {
        return true;
      }
      assert TableOk(s, slot);
      var entry := frames[FrameOf(frames[0][slot])][t];
      if Present(entry) && !Writable(entry) {
        ok := UnWpPage(slot, t);
      } else {
        if Present(entry) { WritableAlone(s, p); }
        ok := true;
      }
    }

    /** A program stores a word: the faults this raises are served first. */
    method UserStore(address: Word, w: Word) returns (ok: bool)
      requires Valid() && IsUser(PageOf(address))
      modifies `refs, frames, memMap
      ensures Valid() && LowSame(old(St()), St())
      ensures Local(old(St()), St(), address / SLOT_SIZE)
      ensures ok ==>
                Spaces() == EagerWrite(old(Spaces()), old(frames[..LOW]), PageOf(address), address / 4 % 1024, w)
      ensures !ok ==> Spaces() == old(Spaces()) && forall i | 0 <= i < PAGES :: St().mp[i] != 0
      ensures ok <==> PageNeed(old(St()), PageOf(address), true) <= FreeCount(old(St()).mp)
    {
      ghost var s, a, low := St(), Spaces(), frames[..LOW];
      ok := ServeFaults(address);
      hide Inv, LowSame, Local, EagerOwn, EagerWrite, PageOf;
      if ok {
        WriteAfterOwn(a, low, PageOf(address), address / 4 % 1024, w);
        ghost var mid := St();
        StoreTo(PageOf(address), address / SLOT_SIZE, address / 4096 % 1024, address / 4 % 1024, w);
        LowSameTrans(s, mid, St());
        LocalTrans(s, mid, St(), address / SLOT_SIZE);
      }
    }

    /** The faults that a user store to `address` raises before it goes through. */
    method ServeFaults(address: Word) returns (ok: bool)
      requires Valid() && IsUser(PageOf(address))
      modifies `refs, frames, memMap
      ensures Valid() && LowSame(old(St()), St())
      ensures Local(old(St()), St(), address / SLOT_SIZE)
      ensures ok ==> Mapped(St(), PageOf(address)) && Writable(Entry(St(), PageOf(address)))
      ensures ok ==> Spaces() == EagerOwn(old(Spaces()), old(frames[..LOW]), PageOf(address))
      ensures !ok ==> Spaces() == old(Spaces()) && forall i | 0 <= i < PAGES :: St().mp[i] != 0
      ensures ok <==> PageNeed(old(St()), PageOf(address), true) <= FreeCount(old(St()).mp)
    {
      ghost var s, p := St(), PageOf(address);
      var slot, t := address / SLOT_SIZE, address / 4096 % 1024;
      PreparedOwn(s, p, frames[..LOW]);
      UserTable(s, p);
      hide Inv;
      if !(Present(frames[0][slot]) && Present(frames[FrameOf(frames[0][slot])][t])) {
        ok := DoNoPage(address);
      } else if !Writable(frames[FrameOf(frames[0][slot])][t]) {
        ok := DoWpPage(address);
      } else {
        WritableAlone(s, p);
        ok := true;
      }
    }

    /** The kernel stores a word for a program, after `verify_area` has called `write_verify` on the page. */
    method KernelStore(address: Word, w: Word) returns (ok: bool)
      requires Valid() && IsUser(PageOf(address))
      modifies `refs, frames, memMap
      ensures Valid() && LowSame(old(St()), St())
      ensures Local(old(St()), St(), address / SLOT_SIZE)
      ensures ok ==>
                Spaces() == EagerWrite(old(Spaces()), old(frames[..LOW]), PageOf(address), address / 4 % 1024, w)
      ensures !ok ==> Spaces() == old(Spaces()) && forall i | 0 <= i < PAGES :: St().mp[i] != 0
      ensures ok <==> PageNeed(old(St()), PageOf(address), true) <= FreeCount(old(St()).mp)
    {
      ghost var s, a, low := St(), Spaces(), frames[..LOW];
      ok := ServeKernelFaults(address);
      hide Inv, LowSame, Local, EagerOwn, EagerWrite, PageOf;
      if ok {
        WriteAfterOwn(a, low, PageOf(address), address / 4 % 1024, w);
        ghost var mid := St();
        StoreTo(PageOf(address), address / SLOT_SIZE, address / 4096 % 1024, address / 4 % 1024, w);
        LowSameTrans(s, mid, St());
        LocalTrans(s, mid, St(), address / SLOT_SIZE);
      }
    }

    method ServeKernelFaults(address: Word) returns (ok: bool)
      requires Valid() && IsUser(PageOf(address))
      modifies `refs, frames, memMap
      ensures Valid() && LowSame(old(St()), St())
      ensures Local(old(St()), St(), address / SLOT_SIZE)
      ensures ok ==> Mapped(St(), PageOf(address)) && Writable(Entry(St(), PageOf(address)))
      ensures ok ==> Spaces() == EagerOwn(old(Spaces()), old(frames[..LOW]), PageOf(address))
      ensures !ok ==> Spaces() == old(Spaces()) && forall i | 0 <= i < PAGES :: St().mp[i] != 0
      ensures ok <==> PageNeed(old(St()), PageOf(address), true) <= FreeCount(old(St()).mp)
    {
      ghost var s := St();
      ok := WriteVerify(address);
      if !ok { return; }
      ghost var mid, p := St(), PageOf(address);
      UserTable(mid, p);
      PreparedOwn(s, p, old(frames[..LOW]));
      PreparedOwn(mid, p, frames[..LOW]);
      var slot, t := address / SLOT_SIZE, address / 4096 % 1024;
      hide Inv;
      if !(Present(frames[0][slot]) && Present(frames[FrameOf(frames[0][slot])][t])) {
        ok := DoNoPage(address);
        hide LowSame, Local;
        LowSameTrans(s, mid, St());
        LocalTrans(s, mid, St(), address / SLOT_SIZE);
      }
    }

    /** The store itself, through a writable entry. */
    method StoreTo(ghost p: Pg, slot: nat, t: nat, k: nat, w: Word)
      requires Valid() && IsUser(p) && p == Pg(slot, t) && Mapped(St(), p) && Writable(Entry(St(), p)) && k < 1024
      modifies `refs, frames, memMap
      ensures Valid() && LowSame(old(St()), St())
      ensures Local(old(St()), St(), slot)
      ensures p in old(Spaces()) && old(Spaces())[p].Own?
      ensures Spaces() == old(Spaces())[p := Own(old(Spaces())[p].data[k := w])]
    {
      ghost var s := St();
      StoreWordInv(s, p, k, w);
      var frame := FrameOf(frames[FrameOf(frames[0][slot])][t]);
      frames[frame] := frames[frame][k := w];
      assert St() == StoreWord(s, p, k, w);
      SpacesBut(s, St(), p);
    }
  }

  lemma LocalSelf(s: State, d: nat)
    requires Sized(s)
    ensures LowSame(s, s) && Local(s, s, d)
  {
  }

  /** What mapping the held page `i` for `p` comes to, when the table may have been made just before. */
  lemma MapResult(s: State, mid: State, p: Pg, i: nat)
    requires Inv(s) && Inv(mid) && LowSame(s, mid) && Local(s, mid, p.d) && SpacesOf(mid) == SpacesOf(s)
    requires IsUser(p) && HasTable(mid, p.d) && !Present(Entry(mid, p))
    requires i < PAGES && Kernel in mid.refs[i] && mid.fr[LOW + i] == s.fr[LOW + i]
    ensures Sized(s) && Sized(mid)
    ensures var s' := MapHeld(mid, p, i);
            && Sized(s') && LowSame(s, s') && LocalBut(s, s', p.d, i) && Entry(s', p) == UserEntry(LOW + i)
            && SpacesOf(s') == SpacesOf(s)[p := Own(s.fr[LOW + i])]
  {
    MapHeldInv(mid, p, i);
    var s' := MapHeld(mid, p, i);
    hide Inv, Entry, Dir, View, Mapped;
    LowSameTrans(s, mid, s');
    SpacesBut(mid, s', p);
  }

  lemma SplitResult(s: State, p: Pg, i: nat)
    requires CanSplit(s, p, i)
    ensures Sized(s) && Mapped(s, p)
    ensures var s' := Split(s, p, i);
            && Inv(s') && Sized(s') && OnlyEntry(s, s', p) && Mapped(s', p) && Writable(Entry(s', p))
            && View(s', p) == Own(s.fr[FrameOf(Entry(s, p))])
            && forall j | 0 <= j < PAGES && j != i && Kernel in s.refs[j] :: Kernel in s'.refs[j]
  {
    hide Split, OnlyEntry, View, Entry;
    SplitHeld(s, p, i);
    SplitInv(s, p, i);
    SplitViews(s, p, i);
    UserEntryDecodes(LOW + i);
  }

  /** A fresh page for the missing page `p`. */
  lemma TakenPage(s: State, i: nat, p: Pg)
    requires Inv(s) && i < PAGES && s.mp[i] == 0 && IsUser(p)
    ensures Sized(s) && Sized(Take(s, i)) && Inv(Take(s, i)) && SpacesOf(Take(s, i)) == SpacesOf(s)
    ensures Entry(Take(s, i), p) == Entry(s, p) && Dir(Take(s, i), p.d) == Dir(s, p.d)
    ensures Kernel in Take(s, i).refs[i] && Take(s, i).fr[LOW + i] == ZeroPage()
    ensures FreeCount(Take(s, i).mp) == FreeCount(s.mp) - 1
  {
    TakeInv(s, i);
    TakeCounts(s, i);
    SpacesSame(s, Take(s, i));
  }

  /** The fresh page was mapped for `p`. */
  lemma GotPage(s: State, mid: State, s': State, p: Pg, i: nat)
    requires Inv(s) && i < PAGES && s.mp[i] == 0 && mid == Take(s, i) && IsUser(p) && !Present(Entry(s, p))
    requires Sized(mid) && Inv(s') && LowSame(mid, s') && LocalBut(mid, s', p.d, i) && Entry(s', p) == UserEntry(LOW + i)
    ensures Sized(s) && LowSame(s, s') && Local(s, s', p.d) && Mapped(s', p) && Writable(Entry(s', p))
    ensures SpacesOf(s)[p := Own(ZeroPage())] == EagerTouch(SpacesOf(s), p)
  {
    TakeInv(s, i);
    FreeIsUnused(s, i);
    UserEntryDecodes(LOW + i);
    LowSameTrans(s, mid, s');
    hide Inv, Entry, Dir;
  }

  /** The fresh page could not be mapped, and nobody has it. */
  lemma LostOne(s: State, mid: State, p: Pg, i: nat)
    requires Inv(s) && i < PAGES && s.mp[i] == 0 && mid == Take(s, i)
    ensures Sized(s) && mid.mp[i] == 1
    ensures var s' := SetUses(mid, i, {Orphan});
            && Inv(s') && Sized(s') && SpacesOf(s') == SpacesOf(s) && LowSame(s, s') && Local(s, s', p.d)
            && s'.fr == mid.fr && s'.mp == mid.mp && s'.refs == mid.refs[i := {Orphan}] && LostPage(s, s', i)
  {
    TakeInv(s, i);
    FreeIsUnused(s, i);
    RetagInv(mid, i, {Orphan});
    var s' := SetUses(mid, i, {Orphan});
    LowSameTrans(s, mid, s');
    SpacesSame(s, mid);
    SpacesSame(mid, s');
    hide Inv, Entry, Dir, SpacesOf, LowSame;
  }

  lemma TakenFor(s: State, i: nat, p: Pg)
    requires Inv(s) && i < PAGES && s.mp[i] == 0 && IsUser(p) && Mapped(s, p)
    ensures Sized(s) && CanSplit(Take(s, i), p, i) && Sized(Take(s, i)) && Mapped(Take(s, i), p)
    ensures Dir(Take(s, i), p.d) == Dir(s, p.d) && Entry(Take(s, i), p) == Entry(s, p)
  {
    TakeInv(s, i);
    assert Kernel in Take(s, i).refs[i];
  }

  /** A fresh page for a copy, and the split, together. */
  lemma SplitDone(s: State, mid: State, s': State, p: Pg, i: nat)
    requires Inv(s) && i < PAGES && s.mp[i] == 0 && mid == Take(s, i) && IsUser(p) && Mapped(s, p)
    requires Inv(mid) && Inv(s') && OnlyEntry(mid, s', p) && Mapped(s', p)
    requires Entry(mid, p) == Entry(s, p) && View(s', p) == Own(mid.fr[FrameOf(Entry(s, p))])
    requires forall j | 0 <= j < PAGES && j != i && Kernel in mid.refs[j] :: Kernel in s'.refs[j]
    ensures Sized(s) && Sized(s') && LowSame(s, s') && Local(s, s', p.d)
    ensures SpacesOf(s') == SpacesOf(s)[p := Own(Data(View(s, p), s.fr[..LOW]))]
  {
    TakeInv(s, i);
    FreeIsUnused(s, i);
    LowSameTrans(s, mid, s');
    hide Inv;
    SpacesSame(s, mid);
    SpacesBut(mid, s', p);
  }

  lemma UserTable(s: State, p: Pg)
    requires Inv(s) && IsUser(p)
    ensures Present(Dir(s, p.d)) ==> HasTable(s, p.d)
    ensures Mapped(s, p) <==> Present(Entry(s, p))
  {
    assert TableOk(s, p.d) && EntryOk(s, p);
  }

  /** A page made private: a mapped page becomes the task's own copy of what it shows. */
  function Prepared(a: Spaces, low: seq<Page>, p: Pg): Spaces {
    if p in a then EagerOwn(a, low, p) else a
  }

  /** A writable page, or an unmapped one, needs no preparation. */
  lemma PreparedOwn(s: State, p: Pg, low: seq<Page>)
    requires Inv(s) && IsUser(p)
    ensures p in SpacesOf(s) <==> Present(Entry(s, p))
    ensures Present(Entry(s, p)) ==> SpacesOf(s)[p] == View(s, p)
    ensures !Present(Entry(s, p)) || Writable(Entry(s, p)) ==> Prepared(SpacesOf(s), low, p) == SpacesOf(s)
    ensures Present(Entry(s, p)) && Writable(Entry(s, p)) ==> SpacesOf(s)[p].Own?
  {
    assert EntryOk(s, p);
    assert p in UserPages();
  }

  /** After `free_page_tables`, no byte of the range is mapped, and what lies in slots wholly beyond it is as before. */
  lemma FreedByte(s0: State, s: State, base: nat, size: Word, i: nat)
    requires Inv(s0) && 16 <= base && base + SlotsFor(size) <= 1024 && size <= 0xFFC0_0000
    requires Freed(s0, s, base, base + SlotsFor(size), 0) && SLOT_SIZE * base + i < WORD_LIMIT
    ensures var p := PageOf(SLOT_SIZE * base + i);
            && Sized(s) && p.d == base + i / SLOT_SIZE
            && (i < size ==> !Mapped(s, p))
            && (SLOT_SIZE * (i / SLOT_SIZE) >= size && p.d < 1024 ==> Entry(s, p) == Entry(s0, p))
  {
    var p := PageOf(SLOT_SIZE * base + i);
    assert p.d == base + i / SLOT_SIZE;
    SlotsCover(size);
    hide SlotsFor, Entry, View;
    assert Gone(p, base, base + SlotsFor(size), 0) <==> i / SLOT_SIZE < SlotsFor(size);
  }

  /** After `copy_page_tables` each byte of the range reads as it did at the start in the source, up to byte 0xA0000 if the
      source is the kernel; beyond that nothing is mapped. */
  lemma CopiedByte(s0: State, s: State, from: nat, to: nat, size: Word, i: nat)
    requires Inv(s0) && Inv(s) && size <= 0xFFC0_0000 && CopyArgs(from, to, SlotsFor(size)) && i < size
    requires Copied(s0, s, from, to, SlotsFor(size), SlotsFor(size), 0)
    ensures SLOT_SIZE * to + i < WORD_LIMIT && SLOT_SIZE * from + i < WORD_LIMIT
    ensures var p, q := PageOf(SLOT_SIZE * from + i), PageOf(SLOT_SIZE * to + i);
            if from != 0 || i < 0xA_0000 then
              (Mapped(s, q) <==> Mapped(s0, p)) && (Mapped(s0, p) ==> View(s, q) == View(s0, p))
            else !Mapped(s, q)
  {
    var n := SlotsFor(size);
    SlotsCover(size);
    hide SlotsFor, Entry, View, Copied, Inv;
    var p, q := PageOf(SLOT_SIZE * from + i), PageOf(SLOT_SIZE * to + i);
    ByteParts(from, i);
    ByteParts(to, i);
    hide PageOf;
    CopiedCell(s0, s, from, to, n, q);
    assert from == 0 ==> i / SLOT_SIZE == 0;
    assert from == 0 ==> (q.t < 160 <==> i < 0xA_0000);
  }

  lemma ByteParts(base: nat, i: nat)
    requires SLOT_SIZE * base + i < WORD_LIMIT
    ensures PageOf(SLOT_SIZE * base + i) == Pg(base + i / SLOT_SIZE, i / 4096 % 1024)
  {
    var d, t, o := i / SLOT_SIZE, i / 4096 % 1024, i % 4096;
    assert i == SLOT_SIZE * d + 4096 * t + o;
    AddressIs(base + d, t, o);
  }

  lemma CopiedCell(s0: State, s: State, from: nat, to: nat, n: nat, q: Pg)
    requires Inv(s) && CopyArgs(from, to, n) && Copied(s0, s, from, to, n, n, 0) && InSlots(q.d, to, n) && q.t < 1024
    ensures Sized(s0) && Sized(s)
    ensures var p := ParentPage(q, from, to);
            if from != 0 || q.t < 160 then
              (Mapped(s, q) <==> Mapped(s0, p)) && (Mapped(s0, p) ==> View(s, q) == View(s0, p))
            else !Mapped(s, q)
  {
    assert NewPage(s0, s, q, from, to, n, 0);
    UserTable(s, q);
  }

  /** A completed copy is an eager copy. */
  lemma CopiedSpaces(s0: State, s: State, from: nat, to: nat, n: nat)
    requires Inv(s0) && Inv(s) && CopyArgs(from, to, n) && Copied(s0, s, from, to, n, n, 0)
    ensures SpacesOf(s) == EagerFork(SpacesOf(s0), SourceOf(s0, from), from, to, n)
  {
    var a := EagerFork(SpacesOf(s0), SourceOf(s0, from), from, to, n);
    forall q | IsUser(q)
      ensures Mapped(s, q) <==> q in a
      ensures Mapped(s, q) ==> View(s, q) == a[q]
    {
      CopiedPage(s0, s, from, to, n, q);
    }
    hide Inv, Copied, EagerFork, SourceOf, Mapped, View;
    SpacesAre(s, a);
  }

  lemma CopiedPage(s0: State, s: State, from: nat, to: nat, n: nat, q: Pg)
    requires Inv(s0) && Inv(s) && CopyArgs(from, to, n) && Copied(s0, s, from, to, n, n, 0) && IsUser(q)
    ensures var a := EagerFork(SpacesOf(s0), SourceOf(s0, from), from, to, n);
            && (Mapped(s, q) <==> q in a)
            && (Mapped(s, q) ==> View(s, q) == a[q])
  {
    UserTable(s, q);
    if InSlots(q.d, to, n) {
      var p := ParentPage(q, from, to);
      assert NewPage(s0, s, q, from, to, n, 0);
      assert Reached(q, from, to, n, 0) <==> q.t < EntryCount(from);
      SourcePage(s0, p, from, n);
    } else {
      assert OldPage(s0, s, q);
    }
  }

  lemma SpacesAre(s: State, a: Spaces)
    requires Sized(s) && forall q | q in a :: IsUser(q)
    requires forall q | IsUser(q) :: Mapped(s, q) <==> q in a
    requires forall q | IsUser(q) && Mapped(s, q) :: View(s, q) == a[q]
    ensures SpacesOf(s) == a
  {
    assert forall q :: q in SpacesOf(s) <==> q in a;
  }

  /** Where the pages of a fork come from: task 0's image in the kernel, or the user pages. */
  ghost function SourceOf(s: State, from: nat): Spaces
    requires Sized(s)
  {
    if from == 0 then KernelImage(s) else SpacesOf(s)
  }

  lemma SourcePage(s: State, p: Pg, from: nat, n: nat)
    requires Inv(s) && InSlots(p.d, from, n) && from + n <= 1024 && p.t < 1024
    requires 16 <= from || (from == 0 && n <= 1)
    ensures p in SourceOf(s, from) <==> p.t < EntryCount(from) && Mapped(s, p)
    ensures p in SourceOf(s, from) ==> SourceOf(s, from)[p] == View(s, p)
  {
    if from == 0 {
      assert p == Pg(0, p.t);
    } else {
      assert p in UserPages();
    }
  }

  /** A copy that stopped part of the way, followed by freeing the child's slots, leaves no trace:
      every use count, every page's contents and every directory slot is as before. */
  lemma ForkUndone(s0: State, s: State, s': State, from: nat, to: nat, n: nat, j: nat, t: nat)
    requires Inv(s0) && Inv(s) && Inv(s') && CopyArgs(from, to, n)
    requires forall d | InSlots(d, to, n) :: !Present(Dir(s0, d))
    requires Copied(s0, s, from, to, n, j, t) && Freed(s, s', to, to + n, 0)
    ensures s'.mp == s0.mp && s'.refs == s0.refs
    ensures ViewsSame(s0, s', {}) && LowSame(s0, s')
    ensures forall d | InSlots(d, to, n) :: !Present(Dir(s', d))
    ensures forall d: nat | !InSlots(d, to, n) :: Dir(s', d) == Dir(s0, d)
    ensures forall p | IsUser(p) && !InSlots(p.d, to, n) ::
              Entry(s', p) == Entry(s0, p) || Entry(s', p) == WriteProtect(Entry(s0, p))
  {
    forall i | 0 <= i < PAGES ensures s'.refs[i] == s0.refs[i] && s'.mp[i] == s0.mp[i] {
      forall r ensures r in s'.refs[i] <==> r in s0.refs[i] {
        ForkUndoneRef(s0, s, s', from, to, n, j, t, i, r);
      }
      assert FrameOk(s0, i) && FrameOk(s', i);
    }
    forall p | IsUser(p)
      ensures Mapped(s', p) <==> Mapped(s0, p)
      ensures Mapped(s0, p) ==> View(s', p) == View(s0, p)
    {
      UserTable(s0, p);
      UserTable(s, p);
      UserTable(s', p);
      assert Gone(p, to, to + n, 0) <==> InSlots(p.d, to, n);
      if !InSlots(p.d, to, n) { assert OldPage(s0, s, p); }
    }
  }

  lemma ForkUndoneRef(s0: State, s: State, s': State, from: nat, to: nat, n: nat, j: nat, t: nat, i: nat, r: Ref)
    requires Inv(s0) && CopyArgs(from, to, n) && i < PAGES
    requires forall d | InSlots(d, to, n) :: !Present(Dir(s0, d))
    requires Copied(s0, s, from, to, n, j, t) && Freed(s, s', to, to + n, 0)
    ensures r in s'.refs[i] <==> r in s0.refs[i]
  {
    FreedRef(s, s', to, to + n, 0, i, r);
    RefsReal(s0);
    assert r in s0.refs[i] ==> RefOk(s0, i, r);
  }

  lemma CopyReady(s0: State, s: State, f: nat, g: nat, n: nat, j: nat, t: nat)
    requires Inv(s) && CopyArgs(f, g, n) && Copied(s0, s, f, g, n, j, t) && j < n && t < EntryCount(f)
    requires HasTable(s, f + j) && HasTable(s, g + j) && Present(Entry(s, Pg(f + j, t)))
    ensures CanShare(s, Pg(f + j, t), Pg(g + j, t))
  {
    hide Copied, Inv, HasTable, Entry, CopyArgs, EntryCount, IsUser;
    ChildEmpty(s0, s, f, g, n, j, t);
    SharePlaces(f, g, n, j, t);
  }

  lemma SharePlaces(f: nat, g: nat, n: nat, j: nat, t: nat)
    requires CopyArgs(f, g, n) && j < n && t < EntryCount(f)
    ensures t < 1024 && IsUser(Pg(g + j, t)) && f + j != g + j && (g + j) % 16 == (f + j) % 16
    ensures IsUser(Pg(f + j, t)) || (f + j == 0 && t < 160)
  {
  }

  /** The next entry of the child is still empty. */
  lemma ChildEmpty(s0: State, s: State, f: nat, g: nat, n: nat, j: nat, t: nat)
    requires CopyArgs(f, g, n) && Copied(s0, s, f, g, n, j, t) && j < n && t < EntryCount(f)
    ensures Sized(s) && IsUser(Pg(g + j, t)) && !Present(Entry(s, Pg(g + j, t)))
  {
    hide HasTable, Entry, Dir, LowSame, OldPage;
    assert NewPage(s0, s, Pg(g + j, t), f, g, j, t);
  }

  lemma ShareStep(s0: State, s: State, f: nat, g: nat, n: nat, j: nat, t: nat)
    requires Inv(s0) && CopyArgs(f, g, n) && Copied(s0, s, f, g, n, j, t) && j < n && t < EntryCount(f)
    requires CanShare(s, Pg(f + j, t), Pg(g + j, t))
    ensures var s' := Share(s, Pg(f + j, t), Pg(g + j, t));
            && Copied(s0, s', f, g, n, j, t + 1) && Sized(s') && FreeCount(s'.mp) == FreeCount(s.mp)
            && HasTable(s', f + j) && HasTable(s', g + j)
  {
    var p, q := Pg(f + j, t), Pg(g + j, t);
    CopyEntryStep(s0, s, f, g, n, j, t);
    ShareEntries(s, p, q);
    ShareCounts(s, p, q);
    SharedSized(s, p, q);
    hide Copied, Inv, Share, Entry;
  }

  /** A copy of `n` slots is complete, if and only if there were frames for the tables, or it stopped on the way. */
  ghost predicate CopyEnded(s0: State, s: State, f: nat, g: nat, n: nat, ok: bool) {
    && Sized(s0)
    && (ok <==> TablesIn(s0, f, n) <= FreeCount(s0.mp))
    && (ok ==> Copied(s0, s, f, g, n, n, 0))
    && (!ok ==> exists j, t :: Copied(s0, s, f, g, n, j, t))
  }

  /** `j` slots are copied, and a frame was used for each table. */
  ghost predicate CopyGoing(s0: State, s: State, f: nat, g: nat, n: nat, j: nat) {
    && Sized(s0) && Copied(s0, s, f, g, n, j, 0) && NextFree(s, g, n, j)
    && FreeCount(s.mp) + TablesIn(s0, f, j) == FreeCount(s0.mp)
  }

  lemma GoingStart(s: State, f: nat, g: nat, n: nat)
    requires Inv(s) && CopyArgs(f, g, n) && forall d | InSlots(d, g, n) :: !Present(Dir(s, d))
    ensures CopyGoing(s, s, f, g, n, 0)
  {
    CopiedStart(s, f, g, n);
  }

  lemma GoingParts(s0: State, s: State, f: nat, g: nat, n: nat, j: nat)
    requires CopyGoing(s0, s, f, g, n, j)
    ensures Sized(s0) && Copied(s0, s, f, g, n, j, 0) && NextFree(s, g, n, j)
  {
  }

  lemma GoingNext(s0: State, s: State, s': State, f: nat, g: nat, n: nat, j: nat)
    requires CopyGoing(s0, s, f, g, n, j) && Copied(s0, s', f, g, n, j + 1, 0) && NextFree(s', g, n, j + 1)
    requires FreeCount(s'.mp) == FreeCount(s.mp) - (if Present(Dir(s0, f + j)) then 1 else 0)
    ensures CopyGoing(s0, s', f, g, n, j + 1)
  {
    hide Copied, NextFree, FreeCount;
  }

  lemma GoingEnds(s0: State, s: State, s': State, f: nat, g: nat, n: nat, j: nat)
    requires CopyGoing(s0, s, f, g, n, j) && j < n && Copied(s0, s', f, g, n, j, 0)
    requires FreeCount(s.mp) == 0 && Present(Dir(s0, f + j))
    ensures CopyEnded(s0, s', f, g, n, false)
  {
    hide Copied, NextFree, FreeCount;
    TablesMore(s0, f, j + 1, n);
  }

  lemma GoingDone(s0: State, s: State, f: nat, g: nat, n: nat)
    requires CopyGoing(s0, s, f, g, n, n)
    ensures CopyEnded(s0, s, f, g, n, true)
  {
    hide Copied, NextFree, FreeCount, TablesIn;
  }

  lemma CopiedStart(s: State, from: nat, to: nat, n: nat)
    requires Inv(s) && CopyArgs(from, to, n)
    requires forall d | InSlots(d, to, n) :: !Present(Dir(s, d))
    ensures Sized(s) && Copied(s, s, from, to, n, 0, 0) && NextFree(s, to, n, 0)
  {
  }

  lemma FreedStart(s: State, base: nat)
    requires Inv(s)
    ensures Freed(s, s, base, base, 0)
  {
  }

  lemma FreedSpaces(s0: State, s: State, base: nat, n: nat)
    requires Inv(s0) && Inv(s) && 16 <= base && base + n <= 1024 && Freed(s0, s, base, base + n, 0)
    ensures SpacesOf(s) == EagerFree(SpacesOf(s0), base, n)
  {
    forall q | IsUser(q) ensures Gone(q, base, base + n, 0) <==> InSlots(q.d, base, n) {
    }
    SpacesFreed(s0, s, base, n);
  }
}
