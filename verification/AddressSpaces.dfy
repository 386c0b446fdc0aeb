/** The reference machine: every task has private pages, and a fork copies all of them at once. */
module AddressSpaces {
  import opened Words
  import opened PagingState

  const SLOT_SIZE := 0x40_0000   // bytes mapped by one page-directory slot

  /** `(size + 0x3fffff) >> 22` in 32-bit arithmetic: the number of slots that cover `size` bytes. */
  function SlotsFor(size: Word): nat {
    (size + SLOT_SIZE - 1) % WORD_LIMIT / SLOT_SIZE
  }

  /** The slots cover `size` bytes, and no slot lies wholly beyond them; a size for which the sum does not fit into 32 bits
      has no slots. */
  lemma SlotsCover(size: Word)
    ensures size <= 0xFFC0_0000 ==> SLOT_SIZE * SlotsFor(size) >= size
    ensures SlotsFor(size) > 0 ==> SLOT_SIZE * (SlotsFor(size) - 1) < size
    ensures size > 0xFFC0_0000 ==> SlotsFor(size) == 0
  {
    var n := SlotsFor(size);
    if size <= 0xFFC0_0000 { assert size + SLOT_SIZE - 1 == SLOT_SIZE * n + (size + SLOT_SIZE - 1) % SLOT_SIZE; }
  }

  /** Of the segment that starts at slot `base`, the bytes below `size` lie in the slots, and each slot has one of them. */
  lemma SlotOfByte(base: nat, size: Word, i: nat)
    requires size <= 0xFFC0_0000
    ensures i < size ==> InSlots((SLOT_SIZE * base + i) / SLOT_SIZE, base, SlotsFor(size))
    ensures InSlots(i, base, SlotsFor(size)) ==> SLOT_SIZE * (i - base) < size
  {
    SlotsCover(size);
    assert (SLOT_SIZE * base + i) / SLOT_SIZE == base + i / SLOT_SIZE;
    hide SlotsFor;
  }

  /** The page of a linear address. */
  function PageOf(address: Word): Pg {
    Pg(address / SLOT_SIZE, address / 4096 % 1024)
  }

  lemma AddressIs(d: nat, t: nat, o: nat)
    requires t < 1024 && o < 4096
    ensures var a := SLOT_SIZE * d + 4096 * t + o;
            a / SLOT_SIZE == d && a / 4096 % 1024 == t && a / 4 % 1024 == o / 4
  {
    var a := SLOT_SIZE * d + 4096 * t + o;
    assert a == 4096 * (1024 * d + t) + o;
    assert a / 4096 == 1024 * d + t;
    assert a / 4 == 1024 * (1024 * d + t) + o / 4;
  }

  type Spaces = map<Pg, Content>

  function UserPages(): (s: set<Pg>)
    ensures forall p :: p in s <==> IsUser(p)
  {
    set d, t | 16 <= d < 1024 && 0 <= t < 1024 :: Pg(d, t)
  }

  /** The contents of all user pages, as programs see them. */
  ghost function SpacesOf(s: State): Spaces
    requires Sized(s)
  {
    map p | p in UserPages() && Mapped(s, p) :: View(s, p)
  }

  /** The 160 pages of task 0 that a fork of task 0 may copy. */
  ghost function KernelImage(s: State): Spaces
    requires Sized(s)
  {
    map t | 0 <= t < 160 && Mapped(s, Pg(0, t)) :: Pg(0, t) := View(s, Pg(0, t))
  }

  /** The page of the parent that page `q` of the child is a copy of. */
  function ParentPage(q: Pg, from: nat, to: nat): Pg
    requires q.d >= to
  {
    Pg(q.d - to + from, q.t)
  }

  predicate InSlots(d: nat, base: nat, n: nat) { base <= d < base + n }

  /** Copy `n` directory slots of pages from slot `from` on to slot `to` on. */
  function EagerFork(a: Spaces, source: Spaces, from: nat, to: nat, n: nat): Spaces {
    map q | q in UserPages() && (if InSlots(q.d, to, n) then ParentPage(q, from, to) in source else q in a) ::
      if InSlots(q.d, to, n) then source[ParentPage(q, from, to)] else a[q]
  }

  function EagerFree(a: Spaces, base: nat, n: nat): Spaces {
    map q | q in a && !InSlots(q.d, base, n) :: a[q]
  }

  /** The bytes behind a page. `low` is the current contents of low memory. */
  function Data(c: Content, low: seq<Page>): Page {
    match c
    case Own(data) => data
    case Low(f) => if f < |low| then low[f] else ZeroPage()
  }

  function EagerTouch(a: Spaces, p: Pg): Spaces {
    if p in a then a else a[p := Own(ZeroPage())]
  }

  /** Page `p` as a private page, before anything is stored in it. */
  function EagerOwn(a: Spaces, low: seq<Page>, p: Pg): Spaces {
    a[p := Own(if p in a then Data(a[p], low) else ZeroPage())]
  }

  function EagerWrite(a: Spaces, low: seq<Page>, p: Pg, k: nat, w: Word): Spaces
    requires k < 1024
  {
    var page := if p in a then Data(a[p], low) else ZeroPage();
    a[p := Own(page[k := w])]
  }

  lemma WriteAfterOwn(a: Spaces, low: seq<Page>, p: Pg, k: nat, w: Word)
    requires k < 1024
    ensures p in EagerOwn(a, low, p) && EagerOwn(a, low, p)[p].Own?
    ensures EagerOwn(a, low, p)[p := Own(EagerOwn(a, low, p)[p].data[k := w])] == EagerWrite(a, low, p, k, w)
  {
  }

  // ---------- From steps on frames to steps on spaces ----------

  lemma SpacesSame(s: State, s': State)
    requires Sized(s) && Sized(s') && ViewsSame(s, s', {})
    ensures SpacesOf(s') == SpacesOf(s)
  {
    assert forall p | IsUser(p) :: p in SpacesOf(s') <==> p in SpacesOf(s);
  }

  lemma SpacesBut(s: State, s': State, p: Pg)
    requires Sized(s) && Sized(s') && IsUser(p) && ViewsSame(s, s', {p}) && Mapped(s', p)
    ensures SpacesOf(s') == SpacesOf(s)[p := View(s', p)]
  {
    assert forall q | IsUser(q) && q != p :: q in SpacesOf(s') <==> q in SpacesOf(s);
  }

  lemma SpacesFreed(s: State, s': State, base: nat, n: nat)
    requires Sized(s) && Sized(s')
    requires forall q | IsUser(q) && InSlots(q.d, base, n) :: !Mapped(s', q)
    requires forall q | IsUser(q) && !InSlots(q.d, base, n) ::
               (Mapped(s', q) <==> Mapped(s, q)) && (Mapped(s, q) ==> View(s', q) == View(s, q))
    ensures SpacesOf(s') == EagerFree(SpacesOf(s), base, n)
  {
    assert forall q :: q in SpacesOf(s') <==> q in EagerFree(SpacesOf(s), base, n);
  }

  // ---------- The use counts, from the page tables alone ----------

  /** The user page-table entries that name frame `i`. */
  ghost function PtesOf(s: State, i: nat): set<Pg>
    requires Sized(s)
  {
    set p | p in UserPages() && Present(Entry(s, p)) && FrameOf(Entry(s, p)) == LOW + i
  }

  /** The user directory slots whose table is frame `i`. */
  ghost function TablesOf(s: State, i: nat): set<nat>
    requires Sized(s)
  {
    set d: nat | d < 1024 && 16 <= d && Present(Dir(s, d)) && FrameOf(Dir(s, d)) == LOW + i
  }

  function One(b: bool): nat { if b then 1 else 0 }

  lemma {:induction false} PteCard(ps: set<Pg>)
    ensures |set p | p in ps :: Pte(p)| == |ps|
  {
    if p :| p in ps {
      PteCard(ps - {p});
      assert (set q | q in ps :: Pte(q)) == (set q | q in ps - {p} :: Pte(q)) + {Pte(p)};
    }
  }

  lemma {:induction false} TableCard(ds: set<nat>)
    ensures |set d | d in ds :: Table(d)| == |ds|
  {
    if d :| d in ds {
      TableCard(ds - {d});
      assert (set e | e in ds :: Table(e)) == (set e | e in ds - {d} :: Table(e)) + {Table(d)};
    }
  }

  /** `mem_map[i]` is the number of user entries naming the frame, plus one if it is a user page table,
      plus one if the kernel holds it, plus one if it was lost; and at most 63. */
  lemma CountsExact(s: State, i: nat)
    requires Inv(s) && i < PAGES
    ensures s.mp[i] == |PtesOf(s, i)| + |TablesOf(s, i)| + One(Kernel in s.refs[i]) + One(Orphan in s.refs[i])
    ensures s.mp[i] <= 63
  {
    var a := set p | p in PtesOf(s, i) :: Pte(p);
    var b := set d | d in TablesOf(s, i) :: Table(d);
    PteCard(PtesOf(s, i));
    TableCard(TablesOf(s, i));
    CountBound(s, i);
    forall r ensures r in s.refs[i] <==> r in a || r in b || (!r.Pte? && !r.Table? && r in s.refs[i]) {
      UsesExact(s, i, r);
    }
    FourKinds(s.refs[i], a, b);
  }

  lemma FourKinds(refs: set<Ref>, a: set<Ref>, b: set<Ref>)
    requires forall r :: r in refs <==> r in a || r in b || (!r.Pte? && !r.Table? && r in refs)
    requires (forall r | r in a :: r.Pte?) && (forall r | r in b :: r.Table?)
    ensures |refs| == |a| + |b| + One(Kernel in refs) + One(Orphan in refs)
  {
    var k := if Kernel in refs then {Kernel} else {};
    var o := if Orphan in refs then {Orphan} else {};
    assert refs == a + b + k + o;
    assert a !! b && (a + b) !! k && (a + b + k) !! o;
  }

  lemma UsesExact(s: State, i: nat, r: Ref)
    requires Inv(s) && i < PAGES
    ensures r.Pte? ==> (r in s.refs[i] <==> r.p in PtesOf(s, i))
    ensures r.Table? ==> (r in s.refs[i] <==> r.d in TablesOf(s, i))
  {
    if r in s.refs[i] { RefsReal(s); assert RefOk(s, i, r); }
    if r.Pte? && r.p in PtesOf(s, i) { assert EntryOk(s, r.p); }
    if r.Table? && r.d in TablesOf(s, i) { assert TableOk(s, r.d); }
  }
}
