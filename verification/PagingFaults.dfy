/** What a write fault and a store change: the last two kinds of elementary step. */
module PagingFaults {
  import opened Words
  import opened PagingState
  import opened PagingSteps
  import opened PagingEntries

  // ---------- The page has one user: just allow writing ----------

  function GrantWrite(s: State, p: Pg): State
    requires Sized(s) && HasTable(s, p.d) && p.t < 1024
  {
    SetEntry(s, p, Grant(Entry(s, p)))
  }

  lemma GrantWriteInv(s: State, p: Pg)
    requires Inv(s) && IsUser(p) && Present(Entry(s, p))
    requires FrameOf(Entry(s, p)) >= LOW ==> FrameOf(Entry(s, p)) < HIGH && s.mp[FrameOf(Entry(s, p)) - LOW] == 1
    requires FrameOf(Entry(s, p)) >= LOW
    ensures HasTable(s, p.d)
    ensures Inv(GrantWrite(s, p)) && OnlyEntry(s, GrantWrite(s, p), p)
    ensures Entry(GrantWrite(s, p), p) == Grant(Entry(s, p))
    ensures ViewsSame(s, GrantWrite(s, p), {})
  {
    var s' := GrantWrite(s, p);
    var i := FrameOf(Entry(s, p)) - LOW;
    GrantKeeps(Entry(s, p));
    assert EntryOk(s, p) && TableOk(s, p.d);
    SetEntryFrame(s, p, Grant(Entry(s, p)));
    EntryViews(s, s', p);
    NotATable(s, p, p.d);
    OtherRefs(s, s', p, i);
    OnlyMember(s.refs[i], Pte(p));
    PteElsewhere(s, p);
    assert FrameOk(s', i);
    Reframe(s, s', {}, {p}, {i});
  }

  lemma OnlyMember<T>(s: set<T>, x: T)
    requires |s| == 1 && x in s
    ensures s == {x}
  {
    assert |s - {x}| == 0;
    assert s == {x} + (s - {x});
  }

  // ---------- The page is shared: give `p` its own copy ----------

  ghost function Split(s: State, p: Pg, i: nat): State
    requires Sized(s) && Mapped(s, p) && i < PAGES
  {
    var w := Entry(s, p);
    var s1 := SetUsesOf(s, w, Uses(s, w) - {Pte(p)});
    SetFrame(MapHeld(s1, p, i), LOW + i, s.fr[FrameOf(w)])
  }

  ghost predicate CanSplit(s: State, p: Pg, i: nat) {
    Inv(s) && IsUser(p) && Mapped(s, p) && i < PAGES && Kernel in s.refs[i]
  }

  lemma SplitFrames(s: State, p: Pg, i: nat)
    requires CanSplit(s, p, i) && HasTable(s, p.d) && p.t < 1024
    ensures Sized(Split(s, p, i))
    ensures Split(s, p, i).fr == SetEntry(s, p, UserEntry(LOW + i)).fr[LOW + i := s.fr[FrameOf(Entry(s, p))]]
  {
  }

  lemma SplitEntries(s: State, s': State, p: Pg, i: nat)
    requires CanSplit(s, p, i) && HasTable(s, p.d) && Sized(s')
    requires s'.fr == SetEntry(s, p, UserEntry(LOW + i)).fr[LOW + i := s.fr[FrameOf(Entry(s, p))]]
    ensures KernelOk(s')
    ensures forall d :: Dir(s', d) == Dir(s, d)
    ensures forall q | q != p && (IsUser(q) || q.d < 16) :: Entry(s', q) == Entry(s, q)
    ensures Entry(s', p) == UserEntry(LOW + i)
    ensures LowSame(s, s')
    ensures forall f | 0 <= f < HIGH && f != FrameOf(Dir(s, p.d)) && f != LOW + i :: s'.fr[f] == s.fr[f]
  {
    var mid := SetEntry(s, p, UserEntry(LOW + i));
    HeldAlone(s, i, Kernel);
    SetEntryFrame(s, p, UserEntry(LOW + i));
    assert TableOk(s, p.d);
    assert forall d :: Dir(s', d) == Dir(s, d);
    forall q | IsUser(q) || q.d < 16 ensures Entry(s', q) == Entry(mid, q) {
      if 16 <= q.d && Present(Dir(s, q.d)) { assert TableOk(s, q.d); }
    }
    KernelOkFrame(s, s');
  }

  lemma SplitViews(s: State, p: Pg, i: nat)
    requires CanSplit(s, p, i)
    ensures HasTable(s, p.d) && Sized(Split(s, p, i))
    ensures OnlyEntry(s, Split(s, p, i), p)
    ensures Entry(Split(s, p, i), p) == UserEntry(LOW + i) && Mapped(Split(s, p, i), p)
    ensures View(Split(s, p, i), p) == Own(s.fr[FrameOf(Entry(s, p))])
  {
    var s' := Split(s, p, i);
    assert TableOk(s, p.d);
    SplitFrames(s, p, i);
    SplitEntries(s, s', p, i);
    UserEntryDecodes(LOW + i);
    HeldAlone(s, i, Kernel);
    hide Split;
    forall q | IsUser(q) && q !in {p} && Present(Entry(s, q)) && FrameOf(Entry(s, q)) >= LOW
      ensures FrameOf(Entry(s, q)) < HIGH ==> s'.fr[FrameOf(Entry(s, q))] == s.fr[FrameOf(Entry(s, q))]
    {
      NotATable(s, q, p.d);
      assert EntryOk(s, q);
    }
    SameViews(s, s', {p});
  }

  lemma SplitUses(s: State, p: Pg, i: nat)
    requires CanSplit(s, p, i)
    ensures Sized(Split(s, p, i))
    ensures s.refs[i] == {Kernel} && s.mp[i] == 1
    ensures FrameOf(Entry(s, p)) != LOW + i
    ensures FrameOf(Entry(s, p)) >= LOW ==> Pte(p) in s.refs[FrameOf(Entry(s, p)) - LOW]
    ensures forall j | 0 <= j < PAGES :: Split(s, p, i).refs[j] == if j == i then {Pte(p)} else s.refs[j] - {Pte(p)}
    ensures forall j | 0 <= j < PAGES ::
              Split(s, p, i).mp[j] + (if LOW + j == FrameOf(Entry(s, p)) then 1 else 0) == s.mp[j]
  {
    SplitBasics(s, p, i);
    PteElsewhere(s, p);
    hide Inv, Entry, Dir;
    forall j | 0 <= j < PAGES && LOW + j != FrameOf(Entry(s, p)) ensures s.refs[j] - {Pte(p)} == s.refs[j] { }
  }

  /** What else the kernel holds, it still holds. */
  lemma SplitHeld(s: State, p: Pg, i: nat)
    requires CanSplit(s, p, i)
    ensures Sized(s) && Sized(Split(s, p, i))
    ensures forall j | 0 <= j < PAGES && j != i && Kernel in s.refs[j] :: Kernel in Split(s, p, i).refs[j]
  {
    SplitUses(s, p, i);
    hide Split, Inv, Entry;
  }

  lemma SplitBasics(s: State, p: Pg, i: nat)
    requires CanSplit(s, p, i)
    ensures s.refs[i] == {Kernel} && s.mp[i] == 1 && FrameOf(Entry(s, p)) != LOW + i
    ensures FrameOf(Entry(s, p)) >= LOW ==>
              && Pte(p) in s.refs[FrameOf(Entry(s, p)) - LOW]
              && s.mp[FrameOf(Entry(s, p)) - LOW] == |s.refs[FrameOf(Entry(s, p)) - LOW]|
  {
    HeldAlone(s, i, Kernel);
    assert EntryOk(s, p);
    if FrameOf(Entry(s, p)) >= LOW { assert FrameOk(s, FrameOf(Entry(s, p)) - LOW); }
  }

  /** Giving `p` a frame of its own in place of the one it shared keeps the invariant. */
  lemma Moved(s: State, s': State, p: Pg, i: nat)
    requires CanSplit(s, p, i) && Sized(s') && KernelOk(s')
    requires forall d :: Dir(s', d) == Dir(s, d)
    requires forall q | q != p && (IsUser(q) || q.d < 16) :: Entry(s', q) == Entry(s, q)
    requires Entry(s', p) == UserEntry(LOW + i)
    requires s.refs[i] == {Kernel} && s.mp[i] == 1 && FrameOf(Entry(s, p)) != LOW + i
    requires forall j | 0 <= j < PAGES :: s'.refs[j] == if j == i then {Pte(p)} else s.refs[j] - {Pte(p)}
    requires forall j | 0 <= j < PAGES :: s'.mp[j] + (if LOW + j == FrameOf(Entry(s, p)) then 1 else 0) == s.mp[j]
    ensures Inv(s')
  {
    MovedTo(s, s', p, i);
    MovedOutside(s, s', p, i);
    var f := FrameOf(Entry(s, p));
    assert EntryOk(s, p) && Present(Entry(s, p)) && IsUser(p);
    hide Inv, Entry, Dir, FrameOk, KeepsUses, CanSplit, KernelOk, EntryOk, Outside;
    if f >= LOW {
      MovedFrom(s, s', p, f - LOW);
      Reframe(s, s', {}, {p}, {i, f - LOW});
    } else {
      Reframe(s, s', {}, {p}, {i});
    }
  }

  lemma MovedTo(s: State, s': State, p: Pg, i: nat)
    requires CanSplit(s, p, i) && Sized(s') && Entry(s', p) == UserEntry(LOW + i)
    requires s.refs[i] == {Kernel} && s'.refs[i] == {Pte(p)} && s'.mp[i] == 1
    ensures FrameOk(s', i) && KeepsUses(s, s', {}, {p}, i) && EntryOk(s', p)
  {
    UserEntryDecodes(LOW + i);
  }

  lemma MovedOutside(s: State, s': State, p: Pg, i: nat)
    requires CanSplit(s, p, i) && Sized(s')
    requires forall d :: Dir(s', d) == Dir(s, d)
    requires forall q | q != p && (IsUser(q) || q.d < 16) :: Entry(s', q) == Entry(s, q)
    requires FrameOf(Entry(s, p)) != LOW + i
    requires forall j | 0 <= j < PAGES :: s'.refs[j] == if j == i then {Pte(p)} else s.refs[j] - {Pte(p)}
    requires forall j | 0 <= j < PAGES :: s'.mp[j] + (if LOW + j == FrameOf(Entry(s, p)) then 1 else 0) == s.mp[j]
    ensures FrameOf(Entry(s, p)) < HIGH
    ensures var f := FrameOf(Entry(s, p)); Outside(s, s', {}, {p}, if f >= LOW then {i, f - LOW} else {i})
  {
    PteElsewhere(s, p);
    hide Inv, Entry, Dir;
    assert forall j | 0 <= j < PAGES && Pte(p) !in s.refs[j] :: s.refs[j] - {Pte(p)} == s.refs[j];
  }

  lemma MovedFrom(s: State, s': State, p: Pg, j: nat)
    requires Inv(s) && IsUser(p) && Present(Entry(s, p)) && Sized(s') && j < PAGES && FrameOf(Entry(s, p)) == LOW + j
    requires forall d :: Dir(s', d) == Dir(s, d)
    requires forall q | q != p && (IsUser(q) || q.d < 16) :: Entry(s', q) == Entry(s, q)
    requires s'.refs[j] == s.refs[j] - {Pte(p)} && s'.mp[j] + 1 == s.mp[j]
    ensures FrameOk(s', j) && KeepsUses(s, s', {}, {p}, j)
  {
    assert EntryOk(s, p);
    OtherRefs(s, s', p, j);
  }

  lemma SplitInv(s: State, p: Pg, i: nat)
    requires CanSplit(s, p, i)
    ensures Inv(Split(s, p, i))
  {
    assert TableOk(s, p.d);
    SplitFrames(s, p, i);
    SplitEntries(s, Split(s, p, i), p, i);
    SplitUses(s, p, i);
    hide Split;
    Moved(s, Split(s, p, i), p, i);
  }

  /** The words that a split stores. */
  lemma SplitWords(s: State, p: Pg, i: nat)
    requires CanSplit(s, p, i)
    ensures Sized(s) && HasTable(s, p.d) && Sized(Split(s, p, i))
    ensures var f, table := FrameOf(Entry(s, p)), FrameOf(Dir(s, p.d));
            && f != LOW + i && table != LOW + i && f != table
            && Split(s, p, i).fr == s.fr[table := s.fr[table][p.t := UserEntry(LOW + i)]][LOW + i := s.fr[f]]
            && (if f >= LOW then
                  && 1 <= s.mp[f - LOW] <= 63
                  && Split(s, p, i).mp == s.mp[f - LOW := s.mp[f - LOW] - 1]
                  && Split(s, p, i).refs == s.refs[f - LOW := s.refs[f - LOW] - {Pte(p)}][i := {Pte(p)}]
                else
                  Split(s, p, i).mp == s.mp && Split(s, p, i).refs == s.refs[i := {Pte(p)}])
  {
    assert TableOk(s, p.d);
    SplitFrames(s, p, i);
    SplitUses(s, p, i);
    NotATable(s, p, p.d);
    if FrameOf(Entry(s, p)) >= LOW { CountBound(s, FrameOf(Entry(s, p)) - LOW); }
  }

  // ---------- A store through a writable entry ----------

  function StoreWord(s: State, p: Pg, k: nat, w: Word): State
    requires Sized(s) && Mapped(s, p) && k < 1024
  {
    var f := FrameOf(Entry(s, p));
    SetFrame(s, f, s.fr[f][k := w])
  }

  /** A writable page is the only user of its frame, so a store through it is seen through it alone. */
  lemma StoreWordInv(s: State, p: Pg, k: nat, w: Word)
    requires Inv(s) && IsUser(p) && Mapped(s, p) && Writable(Entry(s, p)) && k < 1024
    ensures Inv(StoreWord(s, p, k, w))
    ensures ViewsSame(s, StoreWord(s, p, k, w), {p}) && LowSame(s, StoreWord(s, p, k, w))
    ensures forall q | IsUser(q) || q.d < 16 :: Entry(StoreWord(s, p, k, w), q) == Entry(s, q)
    ensures forall d :: Dir(StoreWord(s, p, k, w), d) == Dir(s, d)
    ensures View(s, p).Own? && Mapped(StoreWord(s, p, k, w), p)
    ensures View(StoreWord(s, p, k, w), p) == Own(View(s, p).data[k := w])
  {
    var s' := StoreWord(s, p, k, w);
    assert EntryOk(s, p);
    forall q | IsUser(q) || q.d < 16 ensures Entry(s', q) == Entry(s, q) {
      if 16 <= q.d && Present(Dir(s, q.d)) {
        NotATable(s, p, q.d);
      }
    }
    KernelOkFrame(s, s');
    Reframe(s, s', {}, {}, {});
    forall q | IsUser(q) && q != p && Present(Entry(s, q)) ensures FrameOf(Entry(s, q)) != FrameOf(Entry(s, p)) {
      assert EntryOk(s, q);
    }
    SameViews(s, s', {p});
  }
}
