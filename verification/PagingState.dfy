/** The value-level picture of paging: physical frames, the use counts of `mem_map`, and who uses each frame. */
module PagingState {
  import opened Words

  const LOW := 512       // LOW_MEM / 4096
  const HIGH := 2048     // HIGH_MEMORY / 4096
  const PAGES := 1536    // PAGING_PAGES

  /** A linear page: page-directory slot and page-table index. */
  datatype Pg = Pg(d: nat, t: nat)

  /** Every task but task 0 lives in directory slots 16 and up: task `nr` owns slots 16*nr .. 16*nr+15. */
  predicate IsUser(p: Pg) { 16 <= p.d < 1024 && p.t < 1024 }

  /** One reason for a frame to be in use. An orphan is a page that was taken and then forgotten. */
  datatype Ref = Pte(p: Pg) | Table(d: nat) | Kernel | Orphan

  datatype State = State(fr: seq<Page>, mp: seq<nat>, refs: seq<set<Ref>>)

  predicate Sized(s: State) {
    |s.fr| == HIGH && |s.mp| == PAGES && |s.refs| == PAGES
  }

  function Dir(s: State, d: nat): Word
    requires Sized(s)
  {
    if d < 1024 then s.fr[0][d] else 0
  }

  predicate HasTable(s: State, d: nat)
    requires Sized(s)
  {
    Present(Dir(s, d)) && FrameOf(Dir(s, d)) < HIGH
  }

  /** The page-table entry of `p`, 0 when there is no table. */
  function Entry(s: State, p: Pg): Word
    requires Sized(s)
  {
    if HasTable(s, p.d) && p.t < 1024 then s.fr[FrameOf(Dir(s, p.d))][p.t] else 0
  }

  predicate Mapped(s: State, p: Pg)
    requires Sized(s)
  {
    Present(Entry(s, p)) && FrameOf(Entry(s, p)) < HIGH
  }

  /** What stands behind a mapped page: a frame of low memory, which the kernel and every descendant of
      task 0 share by reference, or a page of data of the task's own. */
  datatype Content = Low(frame: nat) | Own(data: Page)

  function View(s: State, p: Pg): Content
    requires Sized(s) && Mapped(s, p)
  {
    var f := FrameOf(Entry(s, p));
    if f < LOW then Low(f) else Own(s.fr[f])
  }

  /** The two uses can be of the same frame: user pages of one frame sit at the same offset in
      different tasks, and every other kind of use is the only one. */
  predicate Compatible(a: Ref, b: Ref) {
    a == b || (a.Pte? && b.Pte? && a.p.t == b.p.t && a.p.d % 16 == b.p.d % 16)
  }

  /** A user entry is backed by a use; it is writable only when it is the frame's one use. */
  ghost predicate EntryOk(s: State, p: Pg)
    requires Sized(s)
  {
    Present(Entry(s, p)) ==>
      && FrameOf(Entry(s, p)) < HIGH
      && (FrameOf(Entry(s, p)) < LOW ==> !Writable(Entry(s, p)))
      && (FrameOf(Entry(s, p)) >= LOW ==>
            && Pte(p) in s.refs[FrameOf(Entry(s, p)) - LOW]
            && (Writable(Entry(s, p)) ==> s.refs[FrameOf(Entry(s, p)) - LOW] == {Pte(p)}))
  }

  ghost predicate TableOk(s: State, d: nat)
    requires Sized(s)
  {
    Present(Dir(s, d)) ==>
      LOW <= FrameOf(Dir(s, d)) < HIGH && Table(d) in s.refs[FrameOf(Dir(s, d)) - LOW]
  }

  /** A recorded use is a real one. */
  ghost predicate RefOk(s: State, i: nat, r: Ref)
    requires Sized(s)
  {
    match r
    case Pte(p) => IsUser(p) && Present(Entry(s, p)) && FrameOf(Entry(s, p)) == LOW + i
    case Table(d) => 16 <= d < 1024 && Present(Dir(s, d)) && FrameOf(Dir(s, d)) == LOW + i
    case Kernel => true
    case Orphan => true
  }

  /** The count of frame `i` is the number of its uses, and they are real and can coexist. */
  ghost predicate FrameOk(s: State, i: nat)
    requires Sized(s) && i < PAGES
  {
    && (forall r | r in s.refs[i] :: RefOk(s, i, r))
    && (forall a, b | a in s.refs[i] && b in s.refs[i] :: Compatible(a, b))
    && s.mp[i] == |s.refs[i]|
  }

  /** The kernel's own slots: tables in low memory, and task 0's 640 KB (160 pages) mapped to low frames. */
  ghost predicate KernelOk(s: State)
    requires Sized(s)
  {
    && (forall d | 0 <= d < 16 :: Present(Dir(s, d)) ==> 0 < FrameOf(Dir(s, d)) < LOW)
    && (forall t | 0 <= t < 160 :: Present(Entry(s, Pg(0, t))) ==> FrameOf(Entry(s, Pg(0, t))) < LOW)
  }

  /** The paging invariant. */
  ghost predicate Inv(s: State) {
    && Sized(s)
    && KernelOk(s)
    && (forall d | 16 <= d < 1024 :: TableOk(s, d))
    && (forall p | IsUser(p) :: EntryOk(s, p))
    && (forall i | 0 <= i < PAGES :: FrameOk(s, i))
  }

  /** Low memory, and the kernel's slots of the page directory, are the same in both states. */
  ghost predicate LowSame(s: State, s': State)
    requires Sized(s) && Sized(s')
  {
    && (forall f | 0 < f < LOW :: s'.fr[f] == s.fr[f])
    && (forall d | 0 <= d < 16 :: Dir(s', d) == Dir(s, d))
  }

  lemma LowSameTrans(s: State, s1: State, s2: State)
    requires Sized(s) && Sized(s1) && Sized(s2) && LowSame(s, s1) && LowSame(s1, s2)
    ensures LowSame(s, s2)
  {
    assert forall d | 0 <= d < 16 :: Dir(s1, d) == Dir(s, d);
  }

  /** The kernel still holds what it held, and only directory slot `slot` may have changed. */
  ghost predicate Local(s: State, s': State, slot: nat)
    requires Sized(s) && Sized(s')
  {
    && (forall i | 0 <= i < PAGES && Kernel in s.refs[i] :: Kernel in s'.refs[i])
    && (forall d: nat | 16 <= d < 1024 && d != slot :: Dir(s', d) == Dir(s, d))
  }

  lemma LocalTrans(s: State, s1: State, s2: State, slot: nat)
    requires Sized(s) && Sized(s1) && Sized(s2) && Local(s, s1, slot) && Local(s1, s2, slot)
    ensures Local(s, s2, slot)
  {
    assert forall d: nat | 16 <= d < 1024 && d != slot :: Dir(s1, d) == Dir(s, d);
  }

  /** Every user page other than those in `except` is mapped, and reads, as before. */
  ghost predicate ViewsSame(s: State, s': State, except: set<Pg>)
    requires Sized(s) && Sized(s')
  {
    forall p | IsUser(p) && p !in except ::
      && (Mapped(s', p) <==> Mapped(s, p))
      && (Mapped(s, p) ==> View(s', p) == View(s, p))
  }

  lemma SameViews(s: State, s': State, except: set<Pg>)
    requires Inv(s) && Sized(s')
    requires forall p | IsUser(p) && p !in except ::
               Entry(s', p) == Entry(s, p) || (!Present(Entry(s', p)) && !Present(Entry(s, p)))
    requires forall p | IsUser(p) && p !in except && Present(Entry(s, p)) && FrameOf(Entry(s, p)) >= LOW ::
               FrameOf(Entry(s, p)) < HIGH ==> s'.fr[FrameOf(Entry(s, p))] == s.fr[FrameOf(Entry(s, p))]
    ensures ViewsSame(s, s', except)
  {
  }

  lemma TablesApart(s: State, d: nat, e: nat)
    requires Inv(s) && 16 <= d < 1024 && 16 <= e < 1024 && d != e && Present(Dir(s, d)) && Present(Dir(s, e))
    ensures FrameOf(Dir(s, d)) != FrameOf(Dir(s, e))
  {
    assert TableOk(s, d) && TableOk(s, e) && !Compatible(Table(d), Table(e));
    assert FrameOk(s, FrameOf(Dir(s, d)) - LOW);
  }

  lemma NotATable(s: State, q: Pg, d: nat)
    requires Inv(s) && IsUser(q) && Present(Entry(s, q)) && 16 <= d < 1024 && Present(Dir(s, d))
    ensures FrameOf(Entry(s, q)) < HIGH && FrameOf(Entry(s, q)) != FrameOf(Dir(s, d))
  {
    assert EntryOk(s, q) && TableOk(s, d) && !Compatible(Pte(q), Table(d));
    assert FrameOk(s, FrameOf(Dir(s, d)) - LOW);
  }

  lemma RefsReal(s: State)
    requires Inv(s)
    ensures forall i, r | 0 <= i < PAGES && r in s.refs[i] :: RefOk(s, i, r)
  {
    forall i, r | 0 <= i < PAGES && r in s.refs[i] ensures RefOk(s, i, r) {
      assert FrameOk(s, i);
    }
  }

  // ---------- Preserving the invariant ----------

  /** Outside the directory slots `ds`, the pages `ps` and the frames `fs`, nothing changed between the states,
      and the uses recorded outside `fs` have nothing to do with `ds` and `ps`. */
  ghost predicate Outside(s: State, s': State, ds: set<nat>, ps: set<Pg>, fs: set<nat>)
    requires Sized(s) && Sized(s')
  {
    && (forall d | 16 <= d < 1024 && d !in ds :: Dir(s', d) == Dir(s, d))
    && (forall p | IsUser(p) && p !in ps :: Entry(s', p) == Entry(s, p))
    && (forall j | 0 <= j < PAGES && j !in fs :: s'.refs[j] == s.refs[j] && s'.mp[j] == s.mp[j])
    && (forall j, d | 0 <= j < PAGES && j !in fs && d in ds :: Table(d) !in s.refs[j])
    && (forall j, p | 0 <= j < PAGES && j !in fs && p in ps :: Pte(p) !in s.refs[j])
  }

  /** Frame `j` still has the uses that come from unchanged slots and pages. */
  ghost predicate KeepsUses(s: State, s': State, ds: set<nat>, ps: set<Pg>, j: nat)
    requires Sized(s) && Sized(s') && j < PAGES
  {
    && (forall d | Table(d) in s.refs[j] && d !in ds :: Table(d) in s'.refs[j])
    && (forall p | Pte(p) in s.refs[j] && p !in ps ::
          Pte(p) in s'.refs[j] && (Writable(Entry(s, p)) ==> s'.refs[j] == {Pte(p)}))
  }

  /** To re-establish the invariant it is enough to look at the slots, pages and frames that changed. */
  lemma Reframe(s: State, s': State, ds: set<nat>, ps: set<Pg>, fs: set<nat>)
    requires Inv(s) && Sized(s') && KernelOk(s') && Outside(s, s', ds, ps, fs)
    requires forall d | d in ds :: TableOk(s', d)
    requires forall p | p in ps :: EntryOk(s', p)
    requires forall j | j in fs :: j < PAGES && FrameOk(s', j) && KeepsUses(s, s', ds, ps, j)
    ensures Inv(s')
  {
    ReframeTables(s, s', ds, ps, fs);
    ReframeEntries(s, s', ds, ps, fs);
    ReframeFrames(s, s', ds, ps, fs);
  }

  lemma ReframeTables(s: State, s': State, ds: set<nat>, ps: set<Pg>, fs: set<nat>)
    requires Inv(s) && Sized(s') && Outside(s, s', ds, ps, fs)
    requires forall d | d in ds :: TableOk(s', d)
    requires forall j | j in fs :: j < PAGES && KeepsUses(s, s', ds, ps, j)
    ensures forall d | 16 <= d < 1024 :: TableOk(s', d)
  {
    forall d | 16 <= d < 1024 ensures TableOk(s', d) {
      assert TableOk(s, d);
      if d !in ds && Present(Dir(s, d)) && FrameOf(Dir(s, d)) - LOW in fs {
        assert KeepsUses(s, s', ds, ps, FrameOf(Dir(s, d)) - LOW);
      }
    }
  }

  lemma ReframeEntries(s: State, s': State, ds: set<nat>, ps: set<Pg>, fs: set<nat>)
    requires Inv(s) && Sized(s') && Outside(s, s', ds, ps, fs)
    requires forall p | p in ps :: EntryOk(s', p)
    requires forall j | j in fs :: j < PAGES && KeepsUses(s, s', ds, ps, j)
    ensures forall p | IsUser(p) :: EntryOk(s', p)
  {
    forall p | IsUser(p) ensures EntryOk(s', p) {
      assert EntryOk(s, p);
      if p !in ps && Present(Entry(s, p)) && FrameOf(Entry(s, p)) - LOW in fs {
        assert KeepsUses(s, s', ds, ps, FrameOf(Entry(s, p)) - LOW);
      }
    }
  }

  lemma ReframeFrames(s: State, s': State, ds: set<nat>, ps: set<Pg>, fs: set<nat>)
    requires Inv(s) && Sized(s') && Outside(s, s', ds, ps, fs)
    requires forall j | j in fs :: j < PAGES && FrameOk(s', j)
    ensures forall i | 0 <= i < PAGES :: FrameOk(s', i)
  {
    forall i | 0 <= i < PAGES ensures FrameOk(s', i) {
      if i !in fs {
        assert FrameOk(s, i);
        forall r | r in s'.refs[i] ensures RefOk(s', i, r) {
          assert RefOk(s, i, r);
        }
      }
    }
  }

  // ---------- Counts ----------

  function UpTo(n: nat): (r: set<int>)
    ensures |r| == n
    ensures forall k :: k in r <==> 1 <= k <= n
  {
    if n == 0 then {} else UpTo(n - 1) + {n}
  }

  /** A set of refs at one offset has no more members than there are tasks. */
  lemma {:induction false} TaskCard(refs: set<Ref>, tasks: set<int>)
    requires forall r | r in refs :: r.Pte? && IsUser(r.p) && r.p.d / 16 in tasks
    requires forall a, b | a in refs && b in refs :: Compatible(a, b)
    ensures |refs| <= |tasks|
    decreases refs
  {
    if r :| r in refs {
      forall q | q in refs - {r} ensures q.p.d / 16 in tasks - {r.p.d / 16} {
        assert Compatible(q, r);
        assert q.p.d == 16 * (q.p.d / 16) + q.p.d % 16 && r.p.d == 16 * (r.p.d / 16) + r.p.d % 16;
      }
      TaskCard(refs - {r}, tasks - {r.p.d / 16});
    }
  }

  /** No frame is ever used more than 63 times: the 16-bit counts of `mem_map` cannot wrap. */
  lemma CountBound(s: State, i: nat)
    requires Inv(s) && i < PAGES
    ensures s.mp[i] == |s.refs[i]| <= 63
  {
    var tasks := UpTo(63);
    assert FrameOk(s, i);
    if r :| r in s.refs[i] && !r.Pte? {
      assert forall q | q in s.refs[i] :: Compatible(q, r);
      assert s.refs[i] == {r};
    } else {
      forall r | r in s.refs[i] ensures r.Pte? && IsUser(r.p) && r.p.d / 16 in tasks {
        assert RefOk(s, i, r);
      }
      TaskCard(s.refs[i], tasks);
    }
  }
}
