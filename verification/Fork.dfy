/** The paging side of kernel/fork.c and kernel/exit.c: tasks, their segments and their task structs.
    The real page tables are proved to implement the private address spaces of TaskWorld. */
module Fork {
  import opened Words
  import opened PagingState
  import opened PagingSteps
  import opened PagingRanges
  import opened AddressSpaces
  import opened Memory
  import W = TaskWorld

  /** Task `t` has page tables only within its data segment, and none unless it is alive. */
  ghost predicate Tables(s: State, status: seq<W.Status>, t: nat)
    requires Sized(s) && |status| == W.NR_TASKS && t < W.NR_TASKS
  {
    forall d | 16 * t <= d < 16 * t + 16 && Present(Dir(s, d)) ::
      status[t].Alive? && d - 16 * t < SlotsFor(status[t].data)
  }

  /** A task that exists has a task struct, in a page the kernel holds. */
  ghost predicate Struct(s: State, status: seq<W.Status>, page: seq<nat>, t: nat)
    requires Sized(s) && |status| == |page| == W.NR_TASKS && t < W.NR_TASKS
  {
    if status[t].Free? then page[t] == 0
    else LOW <= page[t] < HIGH && Kernel in s.refs[page[t] - LOW]
  }

  ghost predicate TasksOk(s: State, status: seq<W.Status>, page: seq<nat>) {
    && Sized(s) && |status| == |page| == W.NR_TASKS
    && status[0] == W.Alive(0xA_0000, 0xA_0000)
    && (forall t | 1 <= t < W.NR_TASKS :: W.ValidLimits(status[t]))
    && (forall t | 1 <= t < W.NR_TASKS :: Tables(s, status, t) && Struct(s, status, page, t))
    && (forall t, u | 1 <= t < W.NR_TASKS && 1 <= u < W.NR_TASKS && t != u && page[t] != 0 :: page[t] != page[u])
  }

  /** The world the page tables stand for is well formed. */
  lemma WorldIsOk(s: State, status: seq<W.Status>, page: seq<nat>)
    requires Inv(s) && TasksOk(s, status, page)
    ensures W.WorldOk(W.World(status, SpacesOf(s)))
  {
    forall p | p in SpacesOf(s) ensures W.Owned(status, p) {
      assert Mapped(s, p) && Present(Dir(s, p.d));
      assert Tables(s, status, p.d / 16);
    }
  }

  /** A step that stays within the slots of task `t` keeps the other tasks' tables, and all task structs. */
  lemma TasksKept(s: State, s': State, status: seq<W.Status>, page: seq<nat>, slot: nat, t: nat)
    requires TasksOk(s, status, page) && Sized(s') && Local(s, s', slot)
    requires 1 <= t < W.NR_TASKS && slot / 16 == t && status[t].Alive? && slot - 16 * t < SlotsFor(status[t].data)
    ensures TasksOk(s', status, page)
  {
    forall u | 1 <= u < W.NR_TASKS ensures Tables(s', status, u) && Struct(s', status, page, u) {
      assert Tables(s, status, u) && Struct(s, status, page, u);
      forall d | 16 * u <= d < 16 * u + 16 && Present(Dir(s', d)) && d != slot ensures Present(Dir(s, d)) {
      }
    }
  }

  /** Task `t` has no page tables at all. */
  ghost predicate NoTables(s: State, t: nat)
    requires Sized(s)
  {
    forall d | 16 * t <= d < 16 * t + 16 :: !Present(Dir(s, d))
  }

  lemma FreedTasks(s: State, s': State, status: seq<W.Status>, page: seq<nat>, t: nat, n: nat)
    requires Inv(s) && TasksOk(s, status, page) && 1 <= t < W.NR_TASKS && n <= 16
    requires Freed(s, s', 16 * t, 16 * t + n, 0)
    ensures TasksOk(s', status, page) && LowSame(s, s')
    ensures status[t].Alive? && n == SlotsFor(status[t].data) ==> NoTables(s', t)
  {
    forall u | 1 <= u < W.NR_TASKS ensures Tables(s', status, u) && Struct(s', status, page, u) {
      assert Tables(s, status, u) && Struct(s, status, page, u);
      forall d: nat | 16 * u <= d < 16 * u + 16 && Present(Dir(s', d)) ensures Present(Dir(s, d)) {
        FreedDir(s, s', 16 * t, 16 * t + n, d);
      }
      if !status[u].Free? {
        FreedRef(s, s', 16 * t, 16 * t + n, 0, page[u] - LOW, Kernel);
      }
    }
    assert Tables(s, status, t);
    forall d: nat | 16 * t <= d < 16 * t + 16 ensures Present(Dir(s', d)) ==> Present(Dir(s, d)) && d >= 16 * t + n {
      FreedDir(s, s', 16 * t, 16 * t + n, d);
    }
  }

  lemma FreeTwice(a: Spaces, base: nat, n: nat, m: nat)
    requires n <= m
    ensures EagerFree(EagerFree(a, base, n), base, m) == EagerFree(a, base, m)
  {
  }

  lemma SlotsMonotone(a: Word, b: Word)
    requires a <= b <= W.TASK_SIZE
    ensures SlotsFor(a) <= SlotsFor(b) <= 16
  {
  }

  /** The first directory slot of a task. */
  lemma TaskBase(t: nat)
    requires t < W.NR_TASKS
    ensures 0 <= t * W.TASK_SIZE < WORD_LIMIT
    ensures t * W.TASK_SIZE / SLOT_SIZE == 16 * t && t * W.TASK_SIZE % SLOT_SIZE == 0
  {
  }

  /** A task without page tables may change its status. */
  lemma StatusChange(s: State, status: seq<W.Status>, page: seq<nat>, t: nat, st: W.Status)
    requires TasksOk(s, status, page) && 1 <= t < W.NR_TASKS && NoTables(s, t)
    requires W.ValidLimits(st) && (st.Free? <==> status[t].Free?)
    ensures TasksOk(s, status[t := st], page)
  {
    var status' := status[t := st];
    forall u | 1 <= u < W.NR_TASKS ensures Tables(s, status', u) && Struct(s, status', page, u) {
      assert Tables(s, status, u) && Struct(s, status, page, u);
    }
  }

  lemma StructDropped(s: State, status: seq<W.Status>, page: seq<nat>, t: nat)
    requires Inv(s) && TasksOk(s, status, page) && 1 <= t < W.NR_TASKS && status[t].Zombie?
    ensures LOW <= page[t] < HIGH && Kernel in s.refs[page[t] - LOW]
    ensures TasksOk(Drop(s, page[t] - LOW), status[t := W.Free], page[t := 0])
  {
    assert Struct(s, status, page, t);
    var s' := Drop(s, page[t] - LOW);
    DropInv(s, page[t] - LOW);
    var status', page' := status[t := W.Free], page[t := 0];
    forall u | 1 <= u < W.NR_TASKS ensures Tables(s', status', u) && Struct(s', status', page', u) {
      assert Tables(s, status, u) && Struct(s, status, page, u);
      if u == t { assert Tables(s, status, t); }
    }
  }

  lemma StructTaken(s: State, status: seq<W.Status>, page: seq<nat>, i: nat)
    requires Inv(s) && TasksOk(s, status, page) && i < PAGES && s.mp[i] == 0
    ensures TasksOk(Take(s, i), status, page)
    ensures forall t | 1 <= t < W.NR_TASKS :: page[t] != LOW + i
  {
    TakeInv(s, i);
    FreeIsUnused(s, i);
    forall t | 1 <= t < W.NR_TASKS
      ensures Tables(Take(s, i), status, t) && Struct(Take(s, i), status, page, t) && page[t] != LOW + i
    {
      assert Tables(s, status, t) && Struct(s, status, page, t);
    }
  }

  /** The tables of a task are freed or copied `n` slots at a time from its base. */
  lemma ForkArgs(s: State, status: seq<W.Status>, page: seq<nat>, p: nat, c: nat)
    requires Inv(s) && TasksOk(s, status, page) && p < W.NR_TASKS && 1 <= c < W.NR_TASKS
    requires status[p].Alive? && status[c].Free?
    ensures CopyArgs(16 * p, 16 * c, SlotsFor(status[p].data)) && SlotsFor(status[p].data) <= 16
    ensures forall d | InSlots(d, 16 * c, SlotsFor(status[p].data)) :: !Present(Dir(s, d))
  {
    assert W.ValidLimits(status[p]);
    SlotsMonotone(status[p].data, status[p].data);
    assert Tables(s, status, c);
  }

  lemma ForkTasks(s: State, s': State, status: seq<W.Status>, page: seq<nat>, p: nat, c: nat, struct: nat)
    requires Inv(s) && TasksOk(s, status, page) && p < W.NR_TASKS && 1 <= c < W.NR_TASKS
    requires status[p].Alive? && status[c].Free?
    requires var n := SlotsFor(status[p].data); Copied(s, s', 16 * p, 16 * c, n, n, 0)
    requires LOW <= struct < HIGH && Kernel in s.refs[struct - LOW]
    requires forall t | 1 <= t < W.NR_TASKS :: page[t] != struct
    ensures TasksOk(s', status[c := status[p]], page[c := struct])
  {
    var status', page' := status[c := status[p]], page[c := struct];
    ForkArgs(s, status, page, p, c);
    forall t | 1 <= t < W.NR_TASKS ensures Tables(s', status', t) && Struct(s', status', page', t) {
      assert Tables(s, status, t) && Struct(s, status, page, t);
      if t != c && !status[t].Free? {
        assert Kernel in s'.refs[page[t] - LOW];
      }
      forall d | 16 * t <= d < 16 * t + 16 && Present(Dir(s', d)) && !InSlots(d, 16 * c, SlotsFor(status[p].data))
        ensures Present(Dir(s, d))
      {
      }
    }
  }

  /** After a copy is undone the tasks are as before it. */
  lemma UndoneTasks(s: State, s': State, status: seq<W.Status>, page: seq<nat>, c: nat, n: nat)
    requires TasksOk(s, status, page) && Sized(s') && s'.refs == s.refs
    requires forall d: nat | !InSlots(d, 16 * c, n) :: Dir(s', d) == Dir(s, d)
    requires forall d | InSlots(d, 16 * c, n) :: !Present(Dir(s', d))
    ensures TasksOk(s', status, page)
  {
    forall t | 1 <= t < W.NR_TASKS ensures Tables(s', status, t) && Struct(s', status, page, t) {
      assert Tables(s, status, t) && Struct(s, status, page, t);
      forall d | 16 * t <= d < 16 * t + 16 && Present(Dir(s', d)) ensures Present(Dir(s, d)) {
        assert !InSlots(d, 16 * c, n);
      }
    }
  }

  lemma UndoneState(s: State, mid: State, s': State, status: seq<W.Status>, page: seq<nat>, p: nat, c: nat, n: nat)
    requires Inv(s) && Inv(mid) && Inv(s') && TasksOk(s, status, page) && CopyArgs(16 * p, 16 * c, n)
    requires forall d | InSlots(d, 16 * c, n) :: !Present(Dir(s, d))
    requires (exists j, t :: Copied(s, mid, 16 * p, 16 * c, n, j, t)) && Freed(mid, s', 16 * c, 16 * c + n, 0)
    ensures Sized(s) && Sized(s') && TasksOk(s', status, page) && LowSame(s, s') && SpacesOf(s') == SpacesOf(s)
    ensures s'.mp == s.mp && s'.refs == s.refs
  {
    assert Sized(s) && Sized(s');
    hide Inv, TasksOk, LowSame, Freed, Copied, CopyArgs, ViewsSame, Dir;
    var j, t :| Copied(s, mid, 16 * p, 16 * c, n, j, t);
    ForkUndone(s, mid, s', 16 * p, 16 * c, n, j, t);
    SpacesSame(s, s');
    UndoneTasks(s, s', status, page, c, n);
  }

  /** Taking a page for a task struct and giving it back is no change. */
  lemma GivenBack(s0: State, s1: State, s2: State, status: seq<W.Status>, page: seq<nat>, i: nat)
    requires Inv(s0) && i < PAGES && s0.mp[i] == 0 && s1 == Take(s0, i)
    requires Inv(s2) && s2.mp == s1.mp && s2.refs == s1.refs && TasksOk(s2, status, page)
    requires forall t | 1 <= t < W.NR_TASKS :: page[t] != LOW + i
    ensures Kernel in s2.refs[i] && Inv(Drop(s2, i)) && TasksOk(Drop(s2, i), status, page)
    ensures Drop(s2, i).mp == s0.mp && Drop(s2, i).refs == s0.refs
    ensures LowSame(s2, Drop(s2, i)) && SpacesOf(Drop(s2, i)) == SpacesOf(s2)
  {
    FreeIsUnused(s0, i);
    DropInv(s2, i);
    SpacesSame(s2, Drop(s2, i));
    var s' := Drop(s2, i);
    forall t | 1 <= t < W.NR_TASKS ensures Tables(s', status, t) && Struct(s', status, page, t) {
      assert Tables(s2, status, t) && Struct(s2, status, page, t);
    }
  }

  lemma KernelImageSame(s: State, s': State)
    requires Inv(s) && Sized(s') && LowSame(s, s')
    ensures KernelImage(s') == KernelImage(s)
  {
    forall t | 0 <= t < 160
      ensures Mapped(s', Pg(0, t)) <==> Mapped(s, Pg(0, t))
      ensures Mapped(s, Pg(0, t)) ==> View(s', Pg(0, t)) == View(s, Pg(0, t))
    {
      KernelPage(s, s', t);
    }
  }

  // ---------- Runs ----------

  /** Memory, and the tasks in it. */
  datatype Snap = Snap(s: State, status: seq<W.Status>)

  ghost predicate SnapOk(a: Snap) {
    Inv(a.s) && W.WorldOk(W.World(a.status, SpacesOf(a.s)))
  }

  /** There are enough free frames for an operation. */
  ghost predicate Enough(a: Snap, op: W.Op)
    requires SnapOk(a)
  {
    !W.Legal(W.World(a.status, SpacesOf(a.s)), op) ||
    match op
    case Fork(p, _) => 1 + TablesIn(a.s, 16 * p, SlotsFor(a.status[p].data)) <= FreeCount(a.s.mp)
    case Write(t, page, _, _, _) => PageNeed(a.s, W.TaskPage(t, page), true) <= FreeCount(a.s.mp)
    case Touch(t, page) => PageNeed(a.s, W.TaskPage(t, page), false) <= FreeCount(a.s.mp)
    case _ => true
  }

  /** One operation on real memory: what the reference machine does, where memory suffices exactly if it is enough. */
  ghost predicate MemStep(a: Snap, b: Snap, op: W.Op, out: W.Outcome) {
    && SnapOk(a) && SnapOk(b) && out.low == a.s.fr[..LOW] && (out.ok <==> Enough(a, op))
    && W.Next(W.World(a.status, SpacesOf(a.s)), KernelImage(a.s), op, out, W.World(b.status, SpacesOf(b.s)))
  }

  ghost predicate MemRun(trace: seq<Snap>, ops: seq<W.Op>, outs: seq<W.Outcome>) {
    && |trace| == |ops| + 1 && |outs| == |ops|
    && forall i | 0 <= i < |ops| :: MemStep(trace[i], trace[i + 1], ops[i], outs[i])
  }

  lemma StepNext(a: Snap, b: Snap, op: W.Op, out: W.Outcome)
    requires MemStep(a, b, op, out)
    ensures Sized(a.s) && Sized(b.s) && out.low == a.s.fr[..LOW]
    ensures W.Next(W.World(a.status, SpacesOf(a.s)), KernelImage(a.s), op, out, W.World(b.status, SpacesOf(b.s)))
  {
  }

  lemma RunFrom(a: Snap, rest: seq<Snap>, ops: seq<W.Op>, out: W.Outcome, outs: seq<W.Outcome>)
    requires ops != [] && MemRun(rest, ops[1..], outs) && MemStep(a, rest[0], ops[0], out)
    ensures MemRun([a] + rest, ops, [out] + outs)
  {
    hide MemStep;
    var t, all := [a] + rest, [out] + outs;
    forall i | 0 <= i < |ops| ensures MemStep(t[i], t[i + 1], ops[i], all[i]) {
      if i > 0 { assert MemStep(rest[i - 1], rest[i], ops[1..][i - 1], outs[i - 1]); }
    }
  }

  /** A fork of task 0 gives the child the pages of task 0 below byte 0xA0000, with their contents, and no other. */
  lemma FirstFork(a: Snap, b: Snap, c: nat, out: W.Outcome, page: nat)
    requires MemStep(a, b, W.Fork(0, c), out) && W.Legal(W.World(a.status, SpacesOf(a.s)), W.Fork(0, c)) && out.ok
    requires page < 0x4000
    ensures Sized(a.s) && Sized(b.s) && b.status == a.status[c := a.status[0]]
    ensures var q := W.TaskPage(c, page);
            if 4096 * page < 0xA_0000 then
              && (q in SpacesOf(b.s) <==> Mapped(a.s, Pg(0, page)))
              && (q in SpacesOf(b.s) ==> SpacesOf(b.s)[q] == View(a.s, Pg(0, page)))
            else q !in SpacesOf(b.s)
  {
    var q := W.TaskPage(c, page);
    W.SlotsFit(a.status[0].data);
    assert InSlots(q.d, 16 * c, 1) ==> ParentPage(q, 0, 16 * c) == Pg(0, page);
    ChildHadNone(a, c, q);
  }

  /** A free slot of `task[]` has no pages. */
  lemma ChildHadNone(a: Snap, c: nat, q: Pg)
    requires SnapOk(a) && c < W.NR_TASKS && a.status[c].Free? && q.d / 16 == c
    ensures q !in SpacesOf(a.s)
  {
    assert q in SpacesOf(a.s) ==> W.Owned(a.status, q);
  }

  class Tasks {
    const mm: Mm
    const status: array<W.Status>
    const page: array<nat>

    ghost function World(): W.World
      requires mm.Valid()
      reads mm, mm.frames, mm.memMap, status
    {
      W.World(status[..], mm.Spaces())
    }

    ghost predicate Valid()
      reads mm, mm.frames, mm.memMap, status, page
    {
      mm.Valid() && page != mm.memMap && TasksOk(mm.St(), status[..], page[..])
    }

    /** Task 0's pages, as a fork of task 0 copies them. */
    ghost function Kernel0(): Spaces
      requires mm.Valid()
      reads mm, mm.frames, mm.memMap
    {
      KernelImage(mm.St())
    }

    ghost function LowMemory(): seq<Page>
      requires mm.Valid()
      reads mm, mm.frames, mm.memMap
    {
      mm.frames[..LOW]
    }

    /** Just after boot: only task 0 exists. */
    constructor ()
      ensures Valid() && fresh(mm) && fresh(mm.frames) && fresh(mm.memMap) && fresh(status) && fresh(page)
      ensures World().spaces == map[] && forall t | 1 <= t < W.NR_TASKS :: status[t] == W.Free
      ensures forall t: nat | 4096 * t < 0xA_0000 :: KernelMaps(mm.St(), t)
    {
      mm := new Mm();
      status := new W.Status[W.NR_TASKS](t => if t == 0 then W.Alive(0xA_0000, 0xA_0000) else W.Free);
      page := new nat[W.NR_TASKS](t => 0);
    }

    /** Frees the pages of task `t`, as exit and exec do: once for the code limit, once for the data limit. */
    method FreeSegments(t: nat)
      requires Valid() && 1 <= t < W.NR_TASKS && status[t].Alive?
      modifies mm`refs, mm.frames, mm.memMap
      ensures Valid() && LowSame(old(mm.St()), mm.St()) && NoTables(mm.St(), t)
      ensures mm.Spaces() == EagerFree(old(mm.Spaces()), 16 * t, SlotsFor(status[t].data))
    {
      ghost var s, a := mm.St(), mm.Spaces();
      var code, data := status[t].code, status[t].data;
      assert W.ValidLimits(status[..][t]);
      SlotsMonotone(code, data);
      FreeTwice(a, 16 * t, SlotsFor(code), SlotsFor(data));
      hide Inv, TasksOk, LowSame, EagerFree, NoTables, SlotsFor;
      FreeRange(t, code);
      ghost var mid := mm.St();
      FreeRange(t, data);
      LowSameTrans(s, mid, mm.St());
    }

    method FreeRange(t: nat, limit: Word)
      requires Valid() && 1 <= t < W.NR_TASKS && status[t].Alive? && limit <= W.TASK_SIZE
      modifies mm`refs, mm.frames, mm.memMap
      ensures Valid() && LowSame(old(mm.St()), mm.St())
      ensures SlotsFor(limit) == SlotsFor(status[t].data) ==> NoTables(mm.St(), t)
      ensures mm.Spaces() == EagerFree(old(mm.Spaces()), 16 * t, SlotsFor(limit))
    {
      ghost var s := mm.St();
      SlotsMonotone(limit, limit);
      TaskBase(t);
      var panicked := mm.FreePageTables(t * W.TASK_SIZE, limit);
      hide Inv, TasksOk, Freed, LowSame, EagerFree, NoTables, SlotsFor;
      FreedTasks(s, mm.St(), status[..], page[..], t, SlotsFor(limit));
    }

    /** `copy_process`: a task struct, then `copy_mem`. It succeeds if and only if there are free frames for the task struct
        and for each page table of the parent. When memory runs out everything is given back. */
    method ForkTask(p: nat, c: nat) returns (ok: bool)
      requires Valid() && p < W.NR_TASKS && 1 <= c < W.NR_TASKS && status[p].Alive? && status[c].Free?
      modifies mm`refs, mm.frames, mm.memMap, status, page
      ensures Valid() && LowSame(old(mm.St()), mm.St())
      ensures ok ==> status[..] == old(status[..][c := status[p]])
      ensures ok ==> mm.Spaces() == EagerFork(old(mm.Spaces()), if p == 0 then old(Kernel0()) else old(mm.Spaces()),
                                              16 * p, 16 * c, SlotsFor(status[p].data))
      ensures !ok ==> World() == old(World())
      ensures !ok ==> mm.St().mp == old(mm.St()).mp && mm.refs == old(mm.refs)
      ensures ok <==> 1 + TablesIn(old(mm.St()), 16 * p, SlotsFor(old(status[p]).data)) <= FreeCount(old(mm.St()).mp)
    {
      ghost var s0 := mm.St();
      NoneFree(s0.mp);
      var struct := mm.GetFreePage();
      if struct == 0 { return false; }
      ghost var s1 := mm.St();
      TakeInv(s0, struct - LOW);
      TakeCounts(s0, struct - LOW);
      TablesSame(s0, s1, 16 * p, SlotsFor(status[p].data));
      SpacesSame(s0, s1);
      StructTaken(s0, status[..], page[..], struct - LOW);
      ForkArgs(s1, status[..], page[..], p, c);
      KernelImageSame(s0, s1);
      var limit := status[p].data;
      hide Inv, TasksOk, LowSame, Take, Drop, EagerFork, Copied, SpacesOf, KernelImage, TablesIn, FreeCount, SlotsFor;
      ok := CopyMem(p, c);
      ghost var s2 := mm.St();
      if ok {
        ForkTasks(s1, s2, status[..], page[..], p, c, struct);
        CopiedSpaces(s1, s2, 16 * p, 16 * c, SlotsFor(limit));
        LowSameTrans(s0, s1, s2);
        status[c] := status[p];
        page[c] := struct;
      } else {
        GivenBack(s0, s1, s2, status[..], page[..], struct - LOW);
        mm.FreeHeld(struct);
        LowSameTrans(s0, s1, s2);
        LowSameTrans(s0, s2, mm.St());
      }
    }

    /** `copy_mem`: share the parent's pages with the child, and undo it all on failure. */
    method CopyMem(p: nat, c: nat) returns (ok: bool)
      requires Valid() && p < W.NR_TASKS && 1 <= c < W.NR_TASKS && status[p].Alive? && status[c].Free?
      modifies mm`refs, mm.frames, mm.memMap
      ensures mm.Valid() && LowSame(old(mm.St()), mm.St())
      ensures ok ==> var n := SlotsFor(status[p].data);
                Copied(old(mm.St()), mm.St(), 16 * p, 16 * c, n, n, 0)
      ensures !ok ==> Valid() && mm.Spaces() == old(mm.Spaces())
      ensures !ok ==> mm.St().mp == old(mm.St()).mp && mm.refs == old(mm.refs)
      ensures ok <==> TablesIn(old(mm.St()), 16 * p, SlotsFor(status[p].data)) <= FreeCount(old(mm.St()).mp)
    {
      ghost var s1 := mm.St();
      ForkArgs(s1, status[..], page[..], p, c);
      var limit := status[p].data;
      TaskBase(p);
      TaskBase(c);
      var panicked;
      ok, panicked := mm.CopyPageTables(p * W.TASK_SIZE, c * W.TASK_SIZE, limit);
      if !ok {
        UndoCopy(s1, p, c);
      }
    }

    method UndoCopy(ghost s1: State, p: nat, c: nat)
      requires mm.Valid() && page != mm.memMap && p < W.NR_TASKS && 1 <= c < W.NR_TASKS
      requires Inv(s1) && TasksOk(s1, status[..], page[..]) && status[p].Alive? && status[c].Free?
      requires exists j, t :: Copied(s1, mm.St(), 16 * p, 16 * c, SlotsFor(status[p].data), j, t)
      modifies mm`refs, mm.frames, mm.memMap
      ensures Valid() && mm.Spaces() == SpacesOf(s1) && LowSame(s1, mm.St())
      ensures mm.St().mp == s1.mp && mm.refs == s1.refs
    {
      ghost var s2 := mm.St();
      var limit := status[p].data;
      ForkArgs(s1, status[..], page[..], p, c);
      TaskBase(c);
      hide Inv, TasksOk, LowSame, Freed, Copied, CopyArgs, SlotsFor, ViewsSame, SpacesOf, Dir, Entry, EagerFree, Present;
      var panicked := mm.FreePageTables(c * W.TASK_SIZE, limit);
      UndoneState(s1, s2, mm.St(), status[..], page[..], p, c, SlotsFor(limit));
    }

    /** `do_exit`: the pages go, the task struct stays until the parent has waited for it. */
    method ExitTask(t: nat)
      requires Valid() && 1 <= t < W.NR_TASKS && status[t].Alive?
      modifies mm`refs, mm.frames, mm.memMap, status
      ensures Valid() && LowSame(old(mm.St()), mm.St())
      ensures status[..] == old(status[..])[t := W.Zombie]
      ensures mm.Spaces() == EagerFree(old(mm.Spaces()), 16 * t, SlotsFor(old(status[t]).data))
    {
      FreeSegments(t);
      StatusChange(mm.St(), status[..], page[..], t, W.Zombie);
      status[t] := W.Zombie;
    }

    /** The point of no return of `do_execve`: old pages are freed, `change_ldt` sets the new limits. */
    method ExecTask(t: nat, codeLimit: Word)
      requires Valid() && 1 <= t < W.NR_TASKS && status[t].Alive? && codeLimit <= W.TASK_SIZE
      modifies mm`refs, mm.frames, mm.memMap, status
      ensures Valid() && LowSame(old(mm.St()), mm.St())
      ensures status[..] == old(status[..])[t := W.Alive(codeLimit, W.TASK_SIZE)]
      ensures mm.Spaces() == EagerFree(old(mm.Spaces()), 16 * t, SlotsFor(old(status[t]).data))
    {
      FreeSegments(t);
      StatusChange(mm.St(), status[..], page[..], t, W.Alive(codeLimit, W.TASK_SIZE));
      status[t] := W.Alive(codeLimit, W.TASK_SIZE);
    }

    /** `release`: the task struct of a zombie is freed. */
    method ReapTask(t: nat)
      requires Valid() && 1 <= t < W.NR_TASKS && status[t].Zombie?
      modifies mm`refs, mm.memMap, status, page
      ensures Valid() && LowSame(old(mm.St()), mm.St())
      ensures status[..] == old(status[..])[t := W.Free]
      ensures mm.Spaces() == old(mm.Spaces())
    {
      ghost var s := mm.St();
      StructDropped(s, status[..], page[..], t);
      DropInv(s, page[t] - LOW);
      SpacesSame(s, Drop(s, page[t] - LOW));
      hide Inv, TasksOk, LowSame, Drop;
      mm.FreeHeld(page[t]);
      status[t] := W.Free;
      page[t] := 0;
    }

    /** A load or a store by task `t`. The task is killed, by `do_exit(SIGSEGV)`, if and only if there are not enough free
        frames for what the access needs. */
    method AccessTask(t: nat, p: nat, store: bool, byKernel: bool, k: nat, v: Word) returns (ok: bool)
      requires Valid() && 1 <= t < W.NR_TASKS && status[t].Alive? && p < 1024 * SlotsFor(status[t].data) && k < 1024
      modifies mm`refs, mm.frames, mm.memMap, status
      ensures Valid() && LowSame(old(mm.St()), mm.St())
      ensures ok ==> status[..] == old(status[..])
      ensures ok ==> mm.Spaces() == if store then EagerWrite(old(mm.Spaces()), old(LowMemory()), W.TaskPage(t, p), k, v)
                                    else EagerTouch(old(mm.Spaces()), W.TaskPage(t, p))
      ensures !ok ==> status[..] == old(status[..])[t := W.Zombie]
      ensures !ok ==> mm.Spaces() == EagerFree(old(mm.Spaces()), 16 * t, SlotsFor(old(status[t]).data))
      ensures ok <==> PageNeed(old(mm.St()), W.TaskPage(t, p), store) <= FreeCount(old(mm.St()).mp)
    {
      ghost var s := mm.St();
      ok := AccessPage(t, p, store, byKernel, k, v);
      if !ok {
        hide Inv, TasksOk, LowSame, EagerFree, SlotsFor;
        ghost var mid := mm.St();
        ExitTask(t);
        LowSameTrans(s, mid, mm.St());
      }
    }

    method AccessPage(t: nat, p: nat, store: bool, byKernel: bool, k: nat, v: Word) returns (ok: bool)
      requires Valid() && 1 <= t < W.NR_TASKS && status[t].Alive? && p < 1024 * SlotsFor(status[t].data) && k < 1024
      modifies mm`refs, mm.frames, mm.memMap
      ensures Valid() && LowSame(old(mm.St()), mm.St())
      ensures ok ==> mm.Spaces() == if store then EagerWrite(old(mm.Spaces()), old(LowMemory()), W.TaskPage(t, p), k, v)
                                    else EagerTouch(old(mm.Spaces()), W.TaskPage(t, p))
      ensures !ok ==> mm.Spaces() == old(mm.Spaces())
      ensures ok <==> PageNeed(old(mm.St()), W.TaskPage(t, p), store) <= FreeCount(old(mm.St()).mp)
    {
      ghost var s := mm.St();
      assert W.ValidLimits(status[..][t]);
      SlotsMonotone(status[t].data, status[t].data);
      var address := W.Address(t, p, k);
      AddressParts(t, p, k);
      ghost var slot := 16 * t + p / 1024;
      hide Inv, TasksOk, LowSame, Local, EagerWrite, EagerTouch;
      if !store {
        PreparedOwn(s, W.TaskPage(t, p), []);
        ok := Load(address);
      } else if byKernel {
        ok := mm.KernelStore(address, v);
      } else {
        ok := mm.UserStore(address, v);
      }
      TasksKept(s, mm.St(), status[..], page[..], slot, t);
    }

    /** A load from a page that may have to be made first. */
    method Load(address: Word) returns (ok: bool)
      requires mm.Valid() && IsUser(PageOf(address))
      modifies mm`refs, mm.frames, mm.memMap
      ensures mm.Valid() && LowSame(old(mm.St()), mm.St()) && Local(old(mm.St()), mm.St(), address / SLOT_SIZE)
      ensures ok ==> mm.Spaces() == EagerTouch(old(mm.Spaces()), PageOf(address))
      ensures !ok ==> mm.Spaces() == old(mm.Spaces())
      ensures ok <==> PageNeed(old(mm.St()), PageOf(address), false) <= FreeCount(old(mm.St()).mp)
    {
      var slot, t := address / SLOT_SIZE, address / 4096 % 1024;
      PreparedOwn(mm.St(), PageOf(address), []);
      UserTable(mm.St(), PageOf(address));
      if !(Present(mm.frames[0][slot]) && Present(mm.frames[FrameOf(mm.frames[0][slot])][t])) {
        ok := mm.DoNoPage(address);
      } else {
        ok := true;
      }
    }

    ghost function Now(): Snap
      reads mm, mm.frames, mm.memMap, status
    {
      Snap(mm.St(), status[..])
    }

    /** One operation by one task. The real memory does what the reference machine does. */
    method Do(op: W.Op) returns (ghost out: W.Outcome)
      requires Valid()
      modifies mm`refs, mm.frames, mm.memMap, status, page
      ensures Valid() && LowSame(old(mm.St()), mm.St()) && MemStep(old(Now()), Now(), op, out)
    {
      hide *;
      match op {
        case Fork(p, c) => out := DoFork(op, p, c);
        case Write(t, p, k, v, byKernel) => out := DoWrite(op, t, p, k, v, byKernel);
        case Touch(t, p) => out := DoTouch(op, t, p);
        case Exec(t, limit) => out := DoExec(op, t, limit);
        case Exit(t) => out := DoExit(op, t);
        case Reap(t) => out := DoReap(op, t);
      }
    }

    method DoFork(ghost op: W.Op, p: nat, c: nat) returns (ghost out: W.Outcome)
      requires Valid() && op == W.Fork(p, c)
      modifies mm`refs, mm.frames, mm.memMap, status, page
      ensures Valid() && LowSame(old(mm.St()), mm.St()) && MemStep(old(Now()), Now(), op, out)
    {
      ghost var a := Now();
      WorldIsOk(mm.St(), status[..], page[..]);
      assert W.ValidLimits(status[..][0]) && Sized(mm.St());
      hide Inv, TasksOk, LowSame, EagerFork, SlotsFor, TablesIn, FreeCount, W.WorldOk, KernelImage;
      out := W.Outcome(true, LowMemory());
      if p < W.NR_TASKS && 1 <= c < W.NR_TASKS && status[p].Alive? && status[c].Free? {
        var ok := ForkTask(p, c);
        out := W.Outcome(ok, a.s.fr[..LOW]);
      }
      WorldIsOk(mm.St(), status[..], page[..]);
    }

    method DoWrite(ghost op: W.Op, t: nat, p: nat, k: nat, v: Word, byKernel: bool) returns (ghost out: W.Outcome)
      requires Valid() && op == W.Write(t, p, k, v, byKernel)
      modifies mm`refs, mm.frames, mm.memMap, status, page
      ensures Valid() && LowSame(old(mm.St()), mm.St()) && MemStep(old(Now()), Now(), op, out)
    {
      ghost var a := Now();
      WorldIsOk(mm.St(), status[..], page[..]);
      assert Sized(mm.St()) && status.Length == W.NR_TASKS;
      hide Inv, TasksOk, LowSame, EagerWrite, EagerFree, SlotsFor, PageNeed, FreeCount, W.WorldOk;
      out := W.Outcome(true, LowMemory());
      if 1 <= t < W.NR_TASKS && status[t].Alive? && p < 1024 * SlotsFor(status[t].data) && k < 1024 {
        var ok := AccessTask(t, p, true, byKernel, k, v);
        out := W.Outcome(ok, a.s.fr[..LOW]);
      }
      WorldIsOk(mm.St(), status[..], page[..]);
    }

    method DoTouch(ghost op: W.Op, t: nat, p: nat) returns (ghost out: W.Outcome)
      requires Valid() && op == W.Touch(t, p)
      modifies mm`refs, mm.frames, mm.memMap, status, page
      ensures Valid() && LowSame(old(mm.St()), mm.St()) && MemStep(old(Now()), Now(), op, out)
    {
      ghost var a := Now();
      WorldIsOk(mm.St(), status[..], page[..]);
      assert Sized(mm.St()) && status.Length == W.NR_TASKS;
      hide Inv, TasksOk, LowSame, EagerTouch, EagerFree, SlotsFor, PageNeed, FreeCount, W.WorldOk;
      out := W.Outcome(true, LowMemory());
      if 1 <= t < W.NR_TASKS && status[t].Alive? && p < 1024 * SlotsFor(status[t].data) {
        var ok := AccessTask(t, p, false, false, 0, 0);
        out := W.Outcome(ok, a.s.fr[..LOW]);
      }
      WorldIsOk(mm.St(), status[..], page[..]);
    }

    method DoExec(ghost op: W.Op, t: nat, limit: Word) returns (ghost out: W.Outcome)
      requires Valid() && op == W.Exec(t, limit)
      modifies mm`refs, mm.frames, mm.memMap, status, page
      ensures Valid() && LowSame(old(mm.St()), mm.St()) && MemStep(old(Now()), Now(), op, out)
    {
      WorldIsOk(mm.St(), status[..], page[..]);
      assert Sized(mm.St()) && status.Length == W.NR_TASKS;
      hide Inv, TasksOk, LowSame, EagerFree, SlotsFor, W.WorldOk;
      out := W.Outcome(true, LowMemory());
      if 1 <= t < W.NR_TASKS && status[t].Alive? && limit <= W.TASK_SIZE {
        ExecTask(t, limit);
      }
      WorldIsOk(mm.St(), status[..], page[..]);
    }

    method DoExit(ghost op: W.Op, t: nat) returns (ghost out: W.Outcome)
      requires Valid() && op == W.Exit(t)
      modifies mm`refs, mm.frames, mm.memMap, status, page
      ensures Valid() && LowSame(old(mm.St()), mm.St()) && MemStep(old(Now()), Now(), op, out)
    {
      WorldIsOk(mm.St(), status[..], page[..]);
      assert Sized(mm.St()) && status.Length == W.NR_TASKS;
      hide Inv, TasksOk, LowSame, EagerFree, SlotsFor, W.WorldOk;
      out := W.Outcome(true, LowMemory());
      if 1 <= t < W.NR_TASKS && status[t].Alive? {
        ExitTask(t);
      }
      WorldIsOk(mm.St(), status[..], page[..]);
    }

    method DoReap(ghost op: W.Op, t: nat) returns (ghost out: W.Outcome)
      requires Valid() && op == W.Reap(t)
      modifies mm`refs, mm.frames, mm.memMap, status, page
      ensures Valid() && LowSame(old(mm.St()), mm.St()) && MemStep(old(Now()), Now(), op, out)
    {
      WorldIsOk(mm.St(), status[..], page[..]);
      assert Sized(mm.St()) && status.Length == W.NR_TASKS;
      hide Inv, TasksOk, LowSame, W.WorldOk;
      out := W.Outcome(true, LowMemory());
      if 1 <= t < W.NR_TASKS && status[t].Zombie? {
        ReapTask(t);
      }
      WorldIsOk(mm.St(), status[..], page[..]);
    }

    /** Any run of any tasks: the page tables implement private, eagerly copied address spaces throughout. `trace` are the
        states between the operations; a fork fails, and an access kills its task, exactly where frames are too few. */
    method Run(ops: seq<W.Op>) returns (ghost outs: seq<W.Outcome>, ghost trace: seq<Snap>)
      requires Valid()
      modifies mm`refs, mm.frames, mm.memMap, status, page
      ensures Valid() && |outs| == |ops|
      ensures W.WorldOk(old(World())) && World() == W.EagerRun(old(World()), old(Kernel0()), ops, outs)
      ensures forall i | 0 <= i < |outs| :: W.SameLow(old(LowMemory()), outs[i].low)
      ensures MemRun(trace, ops, outs) && trace[0] == old(Now()) && trace[|ops|] == Now()
      decreases |ops|
    {
      WorldIsOk(mm.St(), status[..], page[..]);
      hide MemStep;
      if |ops| == 0 {
        outs, trace := [], [Now()];
        return;
      }
      ghost var s, a, w, kernel := mm.St(), Now(), World(), Kernel0();
      ghost var out := Do(ops[0]);
      StepNext(a, Now(), ops[0], out);
      KernelImageSame(s, mm.St());
      hide Inv, TasksOk;
      ghost var mid := mm.St();
      ghost var rest, later := Run(ops[1..]);
      RunFrom(a, later, ops, out, rest);
      outs, trace := [out] + rest, [a] + later;
      assert W.SameLow(s.fr[..LOW], mid.fr[..LOW]) by {
        assert forall f | 0 < f < LOW :: mid.fr[f] == s.fr[f];
      }
      forall i | 0 <= i < |outs| ensures W.SameLow(s.fr[..LOW], outs[i].low) {
        if i > 0 {
          assert outs[i] == rest[i - 1];
          assert W.SameLow(mid.fr[..LOW], outs[i].low);
        }
      }
    }
  }

  lemma AddressParts(t: nat, p: nat, k: nat)
    requires t < W.NR_TASKS && p < 0x4000 && k < 1024
    ensures PageOf(W.Address(t, p, k)) == W.TaskPage(t, p)
    ensures W.Address(t, p, k) / SLOT_SIZE == 16 * t + p / 1024
    ensures W.Address(t, p, k) / 4 % 1024 == k
    ensures 1 <= t ==> IsUser(W.TaskPage(t, p))
  {
    var q, r := p / 1024, p % 1024;
    assert p == 1024 * q + r;
    AddressIs(16 * t + q, r, 4 * k);
    assert W.Address(t, p, k) == SLOT_SIZE * (16 * t + q) + 4096 * r + 4 * k;
  }
}
