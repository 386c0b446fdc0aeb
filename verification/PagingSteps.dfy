/** The elementary changes the paging code makes to memory, each shown to keep the invariant. */
module PagingSteps {
  import opened Words
  import opened PagingState

  function SetFrame(s: State, f: nat, page: Page): State
    requires f < |s.fr|
  {
    s.(fr := s.fr[f := page])
  }

  ghost function SetUses(s: State, i: nat, uses: set<Ref>): State
    requires i < |s.mp| && i < |s.refs|
  {
    s.(mp := s.mp[i := |uses|], refs := s.refs[i := uses])
  }

  /** A store into the page-table entry of `p`. */
  function SetEntry(s: State, p: Pg, w: Word): State
    requires Sized(s) && HasTable(s, p.d) && p.t < 1024
  {
    var f := FrameOf(Dir(s, p.d));
    SetFrame(s, f, s.fr[f][p.t := w])
  }

  /** Tables are not shared, so storing one entry changes no other entry. */
  lemma SetEntryFrame(s: State, p: Pg, w: Word)
    requires Inv(s) && IsUser(p) && HasTable(s, p.d)
    ensures var s' := SetEntry(s, p, w);
            && Sized(s') && KernelOk(s')
            && (forall d :: Dir(s', d) == Dir(s, d))
            && (forall q | q != p && (IsUser(q) || q.d < 16) :: Entry(s', q) == Entry(s, q))
            && Entry(s', p) == w
            && (forall f | 0 <= f < HIGH && f != FrameOf(Dir(s, p.d)) :: s'.fr[f] == s.fr[f])
  {
    var s' := SetEntry(s, p, w);
    assert TableOk(s, p.d);
    forall q | q != p && (IsUser(q) || q.d < 16) ensures Entry(s', q) == Entry(s, q) {
      if q.d != p.d && 16 <= q.d && Present(Dir(s, q.d)) {
        TablesApart(s, q.d, p.d);
      }
    }
    KernelOkFrame(s, s');
  }

  lemma KernelOkFrame(s: State, s': State)
    requires Sized(s) && Sized(s') && KernelOk(s)
    requires forall d | 0 <= d < 16 :: Dir(s', d) == Dir(s, d)
    requires forall t | 0 <= t < 160 :: Entry(s', Pg(0, t)) == Entry(s, Pg(0, t))
    ensures KernelOk(s')
  {
    forall d | 0 <= d < 16 && Present(Dir(s', d)) ensures 0 < FrameOf(Dir(s', d)) < LOW {
      assert Dir(s', d) == Dir(s, d);
    }
  }

  // ---------- Free frames ----------

  /** The number of frames whose count is 0. */
  function FreeCount(mp: seq<nat>): nat {
    if mp == [] then 0 else (if mp[0] == 0 then 1 else 0) + FreeCount(mp[1..])
  }

  lemma {:induction false} NoneFree(mp: seq<nat>)
    ensures FreeCount(mp) == 0 <==> forall i | 0 <= i < |mp| :: mp[i] != 0
    decreases |mp|
  {
    if mp != [] {
      NoneFree(mp[1..]);
      assert forall i | 1 <= i < |mp| :: mp[i] == mp[1..][i - 1];
      assert forall i | 0 <= i < |mp[1..]| :: mp[1..][i] == mp[i + 1];
    }
  }

  lemma {:induction false} FreeCountSet(mp: seq<nat>, i: nat, v: nat)
    requires i < |mp|
    ensures FreeCount(mp[i := v]) == FreeCount(mp) + (if v == 0 then 1 else 0) - (if mp[i] == 0 then 1 else 0)
    decreases |mp|
  {
    if i == 0 {
      assert mp[i := v][1..] == mp[1..];
    } else {
      FreeCountSet(mp[1..], i - 1, v);
      assert mp[i := v][1..] == mp[1..][i - 1 := v];
    }
  }

  /** The page tables that directory slots `from`.. have. */
  function TablesIn(s: State, from: nat, n: nat): nat
    requires Sized(s)
  {
    if n == 0 then 0 else TablesIn(s, from, n - 1) + (if Present(Dir(s, from + n - 1)) then 1 else 0)
  }

  lemma {:induction false} TablesMore(s: State, from: nat, m: nat, n: nat)
    requires Sized(s) && m <= n
    ensures TablesIn(s, from, m) <= TablesIn(s, from, n)
    decreases n
  {
    if m < n { TablesMore(s, from, m, n - 1); }
  }

  lemma {:induction false} TablesSame(s: State, s': State, from: nat, n: nat)
    requires Sized(s) && Sized(s') && forall d: nat | from <= d < from + n :: Dir(s', d) == Dir(s, d)
    ensures TablesIn(s', from, n) == TablesIn(s, from, n)
    decreases n
  {
    if n > 0 { TablesSame(s, s', from, n - 1); }
  }

  /** The free frames that it takes to load from a page, or to store to it: one for a missing page, one for its table, and
      one for the copy of a page that others use as well. */
  function PageNeed(s: State, p: Pg, store: bool): nat
    requires Sized(s)
  {
    if !Present(Entry(s, p)) then (if Present(Dir(s, p.d)) then 1 else 2)
    else if store && !Alone(s, p) then 1 else 0
  }

  /** The page is counted, and used once. */
  predicate Alone(s: State, p: Pg)
    requires Sized(s)
  {
    LOW <= FrameOf(Entry(s, p)) < HIGH && s.mp[FrameOf(Entry(s, p)) - LOW] == 1
  }

  lemma WritableAlone(s: State, p: Pg)
    requires Inv(s) && IsUser(p) && Present(Entry(s, p)) && Writable(Entry(s, p))
    ensures Alone(s, p)
  {
    assert EntryOk(s, p) && FrameOk(s, FrameOf(Entry(s, p)) - LOW);
  }

  // ---------- Taking and giving back whole frames ----------

  ghost function Take(s: State, i: nat): State
    requires Sized(s) && i < PAGES
  {
    SetUses(SetFrame(s, LOW + i, ZeroPage()), i, {Kernel})
  }

  lemma TakeCounts(s: State, i: nat)
    requires Sized(s) && i < PAGES && s.mp[i] == 0
    ensures FreeCount(Take(s, i).mp) == FreeCount(s.mp) - 1
  {
    FreeCountSet(s.mp, i, 1);
  }

  lemma FreeIsUnused(s: State, i: nat)
    requires Inv(s) && i < PAGES && s.mp[i] == 0
    ensures s.refs[i] == {}
    ensures forall d | 16 <= d < 1024 && Present(Dir(s, d)) :: FrameOf(Dir(s, d)) != LOW + i
    ensures forall p | IsUser(p) && Present(Entry(s, p)) :: FrameOf(Entry(s, p)) != LOW + i
  {
    assert FrameOk(s, i);
    forall d | 16 <= d < 1024 && Present(Dir(s, d)) ensures FrameOf(Dir(s, d)) != LOW + i {
      assert TableOk(s, d);
    }
    forall p | IsUser(p) && Present(Entry(s, p)) ensures FrameOf(Entry(s, p)) != LOW + i {
      assert EntryOk(s, p);
    }
  }

  /** `get_free_page` hands out only frames that nothing uses. */
  lemma TakeInv(s: State, i: nat)
    requires Inv(s) && i < PAGES && s.mp[i] == 0
    ensures Inv(Take(s, i))
    ensures ViewsSame(s, Take(s, i), {}) && LowSame(s, Take(s, i))
    ensures forall p | IsUser(p) || p.d < 16 :: Entry(Take(s, i), p) == Entry(s, p)
    ensures forall d :: Dir(Take(s, i), d) == Dir(s, d)
  {
    var s' := Take(s, i);
    FreeIsUnused(s, i);
    forall p | IsUser(p) || p.d < 16 ensures Entry(s', p) == Entry(s, p) {
      if 16 <= p.d && Present(Dir(s, p.d)) { assert TableOk(s, p.d); }
    }
    KernelOkFrame(s, s');
    assert FrameOk(s', i);
    Reframe(s, s', {}, {}, {i});
    SameViews(s, s', {});
  }

  /** Dropping a kernel use (a task struct, a pipe page, an argument page). */
  ghost function Drop(s: State, i: nat): State
    requires Sized(s) && i < PAGES
  {
    SetUses(s, i, {})
  }

  lemma DropInv(s: State, i: nat)
    requires Inv(s) && i < PAGES && Kernel in s.refs[i]
    ensures s.mp[i] == 1 && s.refs[i] == {Kernel}
    ensures Inv(Drop(s, i))
    ensures ViewsSame(s, Drop(s, i), {}) && LowSame(s, Drop(s, i))
    ensures forall p :: Entry(Drop(s, i), p) == Entry(s, p)
    ensures forall d :: Dir(Drop(s, i), d) == Dir(s, d)
  {
    RetagInv(s, i, {});
  }

  /** Changing a kernel use into nothing, or into an orphan, touches nothing else. */
  lemma RetagInv(s: State, i: nat, uses: set<Ref>)
    requires Inv(s) && i < PAGES && Kernel in s.refs[i]
    requires uses == {} || uses == {Orphan}
    ensures s.mp[i] == 1 && s.refs[i] == {Kernel}
    ensures Inv(SetUses(s, i, uses))
    ensures ViewsSame(s, SetUses(s, i, uses), {}) && LowSame(s, SetUses(s, i, uses))
    ensures forall p :: Entry(SetUses(s, i, uses), p) == Entry(s, p)
    ensures forall d :: Dir(SetUses(s, i, uses), d) == Dir(s, d)
  {
    var s' := SetUses(s, i, uses);
    HeldAlone(s, i, Kernel);
    assert forall p :: Entry(s', p) == Entry(s, p);
    KernelOkFrame(s, s');
    assert FrameOk(s', i);
    Reframe(s, s', {}, {}, {i});
  }

  /** A use that is not a user page is the only use of its frame. */
  lemma HeldAlone(s: State, i: nat, r: Ref)
    requires Inv(s) && i < PAGES && r in s.refs[i] && !r.Pte?
    ensures s.refs[i] == {r} && s.mp[i] == 1
  {
    assert FrameOk(s, i);
    assert forall q | q in s.refs[i] :: Compatible(q, r);
    assert s.refs[i] == {r};
  }

  // ---------- Page tables ----------

  ghost function AddTable(s: State, d: nat, i: nat): State
    requires Sized(s) && d < 1024 && i < PAGES
  {
    SetUses(SetFrame(s, 0, s.fr[0][d := UserEntry(LOW + i)]), i, {Table(d)})
  }

  lemma AddTableInv(s: State, d: nat, i: nat)
    requires Inv(s) && 16 <= d < 1024 && i < PAGES
    requires !Present(Dir(s, d)) && Kernel in s.refs[i] && s.fr[LOW + i] == ZeroPage()
    ensures s.mp[i] == 1 && s.refs[i] == {Kernel}
    ensures Inv(AddTable(s, d, i))
    ensures ViewsSame(s, AddTable(s, d, i), {}) && LowSame(s, AddTable(s, d, i))
    ensures HasTable(AddTable(s, d, i), d)
    ensures forall p | IsUser(p) || p.d < 16 :: Entry(AddTable(s, d, i), p) == Entry(s, p)
    ensures forall e | e != d :: Dir(AddTable(s, d, i), e) == Dir(s, e)
  {
    var s' := AddTable(s, d, i);
    HeldAlone(s, i, Kernel);
    UserEntryDecodes(LOW + i);
    AddTableEntries(s, d, i);
    KernelOkFrame(s, s');
    assert FrameOk(s', i);
    SlotUnused(s, d);
    Reframe(s, s', {d}, {}, {i});
    SameViews(s, s', {});
  }

  lemma AddTableCounts(s: State, d: nat, i: nat)
    requires Sized(s) && d < 1024 && i < PAGES && s.mp[i] == 1
    ensures FreeCount(AddTable(s, d, i).mp) == FreeCount(s.mp)
  {
    FreeCountSet(s.mp, i, 1);
  }

  lemma AddTableEntries(s: State, d: nat, i: nat)
    requires Inv(s) && 16 <= d < 1024 && i < PAGES
    requires !Present(Dir(s, d)) && s.fr[LOW + i] == ZeroPage()
    ensures forall p | IsUser(p) || p.d < 16 :: Entry(AddTable(s, d, i), p) == Entry(s, p)
  {
    UserEntryDecodes(LOW + i);
    forall p | IsUser(p) || p.d < 16 ensures Entry(AddTable(s, d, i), p) == Entry(s, p) {
      if 16 <= p.d { assert TableOk(s, p.d); }
    }
  }

  lemma SlotUnused(s: State, d: nat)
    requires Inv(s) && !Present(Dir(s, d))
    ensures forall j | 0 <= j < PAGES :: Table(d) !in s.refs[j]
  {
    forall j | 0 <= j < PAGES ensures Table(d) !in s.refs[j] {
      assert FrameOk(s, j);
      assert Table(d) in s.refs[j] ==> RefOk(s, j, Table(d));
    }
  }

  ghost function DropTable(s: State, d: nat): State
    requires Sized(s) && d < 1024 && LOW <= FrameOf(Dir(s, d)) < HIGH
  {
    SetUses(SetFrame(s, 0, s.fr[0][d := 0]), FrameOf(Dir(s, d)) - LOW, {})
  }

  lemma DropTableInv(s: State, d: nat)
    requires Inv(s) && 16 <= d < 1024 && Present(Dir(s, d))
    requires forall t | 0 <= t < 1024 :: Entry(s, Pg(d, t)) == 0
    ensures LOW <= FrameOf(Dir(s, d)) < HIGH
    ensures s.mp[FrameOf(Dir(s, d)) - LOW] == 1 && s.refs[FrameOf(Dir(s, d)) - LOW] == {Table(d)}
    ensures Inv(DropTable(s, d))
    ensures ViewsSame(s, DropTable(s, d), {}) && LowSame(s, DropTable(s, d))
    ensures forall p | IsUser(p) || p.d < 16 :: Entry(DropTable(s, d), p) == Entry(s, p)
    ensures forall e :: Dir(DropTable(s, d), e) == if e == d then 0 else Dir(s, e)
  {
    assert TableOk(s, d);
    var i := FrameOf(Dir(s, d)) - LOW;
    var s' := DropTable(s, d);
    HeldAlone(s, i, Table(d));
    forall p | IsUser(p) || p.d < 16 ensures Entry(s', p) == Entry(s, p) {
      if 16 <= p.d { assert TableOk(s, p.d) && p == Pg(p.d, p.t); }
    }
    KernelOkFrame(s, s');
    forall j | 0 <= j < PAGES && Table(d) in s.refs[j] ensures j == i {
      assert FrameOk(s, j) && RefOk(s, j, Table(d));
    }
    assert FrameOk(s', i);
    Reframe(s, s', {d}, {}, {i});
    SameViews(s, s', {});
  }
}
