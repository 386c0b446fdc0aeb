/** Tasks as their users see them: private address spaces, changed only by the task itself. This is the
    specification that the paging code is proved to implement in module Fork. */
module TaskWorld {
  import opened Words
  import opened PagingState
  import opened AddressSpaces

  const NR_TASKS := 64
  const TASK_SIZE := 0x400_0000   // linear addresses of one task; `nr * 0x4000000` is its base

  /** A slot of `task[]`: empty, a living task with the limits of its code and data segments, or a zombie. */
  datatype Status = Free | Alive(code: Word, data: Word) | Zombie

  datatype World = World(status: seq<Status>, spaces: Spaces)

  /** What tasks do. Pages are numbered from the start of the task's segment. */
  datatype Op =
    | Fork(parent: nat, child: nat)
    | Write(task: nat, page: nat, word: nat, value: Word, byKernel: bool)
    | Touch(task: nat, page: nat)
    | Exec(task: nat, codeLimit: Word)
    | Exit(task: nat)
    | Reap(task: nat)

  /** Whether memory sufficed, and the contents of low memory when the operation began. */
  datatype Outcome = Outcome(ok: bool, low: seq<Page>)

  /** Low memory is constant, apart from the page directory in frame 0. */
  predicate SameLow(a: seq<Page>, b: seq<Page>) {
    |a| == |b| == LOW && forall f | 0 < f < LOW :: b[f] == a[f]
  }

  predicate ValidLimits(st: Status) {
    st.Alive? ==> st.code <= st.data <= TASK_SIZE
  }

  predicate WorldOk(w: World) {
    && |w.status| == NR_TASKS
    && w.status[0] == Alive(0xA_0000, 0xA_0000)
    && (forall t | 0 <= t < NR_TASKS :: ValidLimits(w.status[t]))
    && (forall p | p in w.spaces :: Owned(w.status, p))
  }

  /** Every page belongs to a living task and lies within its data segment. */
  predicate Owned(status: seq<Status>, p: Pg) {
    && IsUser(p) && p.d / 16 < |status| && status[p.d / 16].Alive?
    && p.d % 16 < SlotsFor(status[p.d / 16].data)
  }

  predicate CanAccess(w: World, t: nat, page: nat)
    requires WorldOk(w)
  {
    1 <= t < NR_TASKS && w.status[t].Alive? && page < 1024 * SlotsFor(w.status[t].data)
  }

  predicate Legal(w: World, op: Op)
    requires WorldOk(w)
  {
    match op
    case Fork(p, c) => p < NR_TASKS && 1 <= c < NR_TASKS && w.status[p].Alive? && w.status[c].Free?
    case Write(t, page, k, v, _) => CanAccess(w, t, page) && k < 1024
    case Touch(t, page) => CanAccess(w, t, page)
    case Exec(t, limit) => 1 <= t < NR_TASKS && w.status[t].Alive? && limit <= TASK_SIZE
    case Exit(t) => 1 <= t < NR_TASKS && w.status[t].Alive?
    case Reap(t) => 1 <= t < NR_TASKS && w.status[t].Zombie?
  }

  /** The linear page behind page `page` of task `t`. */
  function TaskPage(t: nat, page: nat): Pg {
    Pg(16 * t + page / 1024, page % 1024)
  }

  function Address(t: nat, page: nat, k: nat): Word
    requires t < NR_TASKS && page < 0x4000 && k < 1024
  {
    t * TASK_SIZE + page * 4096 + k * 4
  }

  function Kill(w: World, t: nat): World
    requires WorldOk(w) && 1 <= t < NR_TASKS && w.status[t].Alive?
  {
    World(w.status[t := Zombie], EagerFree(w.spaces, 16 * t, SlotsFor(w.status[t].data)))
  }

  /** One operation on private, eagerly copied address spaces. `kernel` is task 0's image. A task whose
      page fault finds no memory is killed; a fork that finds none has no effect. */
  function EagerStep(w: World, kernel: Spaces, op: Op, out: Outcome): World
    requires WorldOk(w)
  {
    if !Legal(w, op) then w else
    match op
    case Fork(p, c) =>
      if !out.ok then w else
      var source := if p == 0 then kernel else w.spaces;
      World(w.status[c := w.status[p]],
            EagerFork(w.spaces, source, 16 * p, 16 * c, SlotsFor(w.status[p].data)))
    case Write(t, page, k, v, _) =>
      if !out.ok then Kill(w, t) else w.(spaces := EagerWrite(w.spaces, out.low, TaskPage(t, page), k, v))
    case Touch(t, page) =>
      if !out.ok then Kill(w, t) else w.(spaces := EagerTouch(w.spaces, TaskPage(t, page)))
    case Exec(t, limit) =>
      World(w.status[t := Alive(limit, TASK_SIZE)],
            EagerFree(w.spaces, 16 * t, SlotsFor(w.status[t].data)))
    case Exit(t) => Kill(w, t)
    case Reap(t) => w.(status := w.status[t := Free])
  }

  /** `w'` is what the reference machine makes of `w`. */
  predicate Next(w: World, kernel: Spaces, op: Op, out: Outcome, w': World) {
    WorldOk(w) && w' == EagerStep(w, kernel, op, out)
  }

  lemma EagerStepOk(w: World, kernel: Spaces, op: Op, out: Outcome)
    requires WorldOk(w)
    ensures WorldOk(EagerStep(w, kernel, op, out))
  {
    var w' := EagerStep(w, kernel, op, out);
    if !Legal(w, op) { return; }
    forall p | p in w'.spaces ensures Owned(w'.status, p) {
      StepOwned(w, kernel, op, out, p);
    }
  }

  lemma StepOwned(w: World, kernel: Spaces, op: Op, out: Outcome, p: Pg)
    requires WorldOk(w) && Legal(w, op) && p in EagerStep(w, kernel, op, out).spaces
    ensures Owned(EagerStep(w, kernel, op, out).status, p)
  {
    match op
    case Fork(q, c) =>
      SlotsFit(w.status[q].data);
      assert InSlots(p.d, 16 * c, SlotsFor(w.status[q].data)) || !out.ok || (p in w.spaces && Owned(w.status, p));
    case Write(t, page, k, v, _) =>
      AccessOwned(w, t, page);
      assert p == TaskPage(t, page) || (p in w.spaces && Owned(w.status, p));
    case Touch(t, page) =>
      AccessOwned(w, t, page);
      assert p == TaskPage(t, page) || (p in w.spaces && Owned(w.status, p));
    case Exec(t, limit) => NotOf(w, t, p);
    case Exit(t) => NotOf(w, t, p);
    case Reap(t) => assert Owned(w.status, p);
  }

  lemma AccessOwned(w: World, t: nat, page: nat)
    requires WorldOk(w) && CanAccess(w, t, page)
    ensures Owned(w.status, TaskPage(t, page)) && IsUser(TaskPage(t, page)) && TaskPage(t, page).d / 16 == t
    ensures page < 0x4000
  {
    SlotsFit(w.status[t].data);
  }

  /** A page left over when a task's segment is freed belongs to another task. */
  lemma NotOf(w: World, t: nat, p: Pg)
    requires WorldOk(w) && t < NR_TASKS && w.status[t].Alive? && p in w.spaces
    ensures Owned(w.status, p)
    ensures p.d / 16 == t <==> InSlots(p.d, 16 * t, SlotsFor(w.status[t].data))
  {
    assert Owned(w.status, p);
    SlotsFit(w.status[t].data);
  }

  function EagerRun(w: World, kernel: Spaces, ops: seq<Op>, outs: seq<Outcome>): (r: World)
    requires WorldOk(w) && |ops| == |outs|
    ensures WorldOk(r)
    decreases |ops|
  {
    if |ops| == 0 then w else
    EagerStepOk(w, kernel, ops[0], outs[0]);
    EagerRun(EagerStep(w, kernel, ops[0], outs[0]), kernel, ops[1..], outs[1..])
  }

  // ---------- Isolation ----------

  predicate ActsAs(op: Op, t: nat) {
    match op
    case Fork(p, c) => false
    case Write(u, page, k, v, _) => u == t
    case Touch(u, page) => u == t
    case Exec(u, limit) => u == t
    case Exit(u) => u == t
    case Reap(u) => u == t
  }

  /** The pages of task `t`. */
  function SpaceOfTask(w: World, t: nat): Spaces {
    map p | p in w.spaces && InSlots(p.d, 16 * t, 16) :: w.spaces[p]
  }

  /** Data segments are at most 64 MB, which is 16 directory slots. */
  lemma SlotsFit(limit: Word)
    requires limit <= TASK_SIZE
    ensures SlotsFor(limit) <= 16
    ensures limit == 0xA_0000 ==> SlotsFor(limit) == 1
    ensures limit == TASK_SIZE ==> SlotsFor(limit) == 16
  {
  }

  /** Whatever the other tasks do in one step, a living task's memory stays as it is. */
  lemma StepIsolation(w: World, kernel: Spaces, op: Op, out: Outcome, t: nat)
    requires WorldOk(w) && 1 <= t < NR_TASKS && w.status[t].Alive? && !ActsAs(op, t)
    ensures EagerStep(w, kernel, op, out).status[t] == w.status[t]
    ensures SpaceOfTask(EagerStep(w, kernel, op, out), t) == SpaceOfTask(w, t)
  {
    var w' := EagerStep(w, kernel, op, out);
    if !Legal(w, op) { return; }
    forall p: Pg | InSlots(p.d, 16 * t, 16)
      ensures p in w'.spaces <==> p in w.spaces
      ensures p in w.spaces ==> w'.spaces[p] == w.spaces[p]
    {
      StepElsewhere(w, kernel, op, out, t, p);
    }
  }

  lemma StepElsewhere(w: World, kernel: Spaces, op: Op, out: Outcome, t: nat, p: Pg)
    requires WorldOk(w) && 1 <= t < NR_TASKS && w.status[t].Alive? && !ActsAs(op, t) && Legal(w, op)
    requires InSlots(p.d, 16 * t, 16)
    ensures var w' := EagerStep(w, kernel, op, out);
            (p in w'.spaces <==> p in w.spaces) && (p in w.spaces ==> w'.spaces[p] == w.spaces[p])
  {
    hide EagerFree;
    match op
    case Fork(q, c) => SlotsFit(w.status[q].data);
    case Write(u, page, k, v, _) => AccessOwned(w, u, page); FreeElsewhere(w, u, t, p);
    case Touch(u, page) => AccessOwned(w, u, page); FreeElsewhere(w, u, t, p);
    case Exec(u, limit) => FreeElsewhere(w, u, t, p);
    case Exit(u) => FreeElsewhere(w, u, t, p);
    case Reap(u) =>
  }

  lemma FreeElsewhere(w: World, u: nat, t: nat, p: Pg)
    requires WorldOk(w) && u < NR_TASKS && w.status[u].Alive? && u != t && InSlots(p.d, 16 * t, 16)
    ensures var a := EagerFree(w.spaces, 16 * u, SlotsFor(w.status[u].data));
            (p in a <==> p in w.spaces) && (p in w.spaces ==> a[p] == w.spaces[p])
  {
    SlotsFit(w.status[u].data);
  }

  /** Over any run, a living task that does nothing itself finds its memory exactly as it left it. */
  lemma {:induction false} Isolation(w: World, kernel: Spaces, ops: seq<Op>, outs: seq<Outcome>, t: nat)
    requires WorldOk(w) && |ops| == |outs| && 1 <= t < NR_TASKS && w.status[t].Alive?
    requires forall i | 0 <= i < |ops| :: !ActsAs(ops[i], t)
    ensures EagerRun(w, kernel, ops, outs).status[t] == w.status[t]
    ensures SpaceOfTask(EagerRun(w, kernel, ops, outs), t) == SpaceOfTask(w, t)
    decreases |ops|
  {
    if |ops| > 0 {
      EagerStepOk(w, kernel, ops[0], outs[0]);
      StepIsolation(w, kernel, ops[0], outs[0], t);
      Isolation(EagerStep(w, kernel, ops[0], outs[0]), kernel, ops[1..], outs[1..], t);
    }
  }

  /** A fresh child has, page for page, what its parent has, and the parent keeps it. */
  lemma FreshChild(w: World, kernel: Spaces, p: nat, c: nat, out: Outcome, page: nat)
    requires WorldOk(w) && Legal(w, Fork(p, c)) && out.ok && p != 0
    requires page < 1024 * SlotsFor(w.status[p].data)
    ensures var w' := EagerStep(w, kernel, Fork(p, c), out);
            && w'.status == w.status[c := w.status[p]]
            && (TaskPage(c, page) in w'.spaces <==> TaskPage(p, page) in w.spaces)
            && (TaskPage(p, page) in w.spaces ==>
                  && w'.spaces[TaskPage(c, page)] == w.spaces[TaskPage(p, page)]
                  && TaskPage(p, page) in w'.spaces && w'.spaces[TaskPage(p, page)] == w.spaces[TaskPage(p, page)])
  {
    SlotsFit(w.status[p].data);
    var n := SlotsFor(w.status[p].data);
    assert p < NR_TASKS && 1 <= c < NR_TASKS && p != c && Legal(w, Fork(p, c));
    PagePlaces(p, c, n, page);
    hide EagerFork, WorldOk, SlotsFor, TaskPage, ParentPage, InSlots, IsUser, Legal;
    ForkedPage(w.spaces, 16 * p, 16 * c, n, TaskPage(c, page));
    KeptPage(w.spaces, 16 * p, 16 * c, n, TaskPage(p, page));
  }

  lemma PagePlaces(p: nat, c: nat, n: nat, page: nat)
    requires 1 <= p < NR_TASKS && 1 <= c < NR_TASKS && p != c && n <= 16 && page < 1024 * n
    ensures IsUser(TaskPage(p, page)) && IsUser(TaskPage(c, page))
    ensures InSlots(TaskPage(c, page).d, 16 * c, n) && !InSlots(TaskPage(p, page).d, 16 * c, n)
    ensures ParentPage(TaskPage(c, page), 16 * p, 16 * c) == TaskPage(p, page)
  {
    assert page / 1024 < n;
  }

  lemma ForkedPage(a: Spaces, from: nat, to: nat, n: nat, q: Pg)
    requires IsUser(q) && InSlots(q.d, to, n)
    ensures var b := EagerFork(a, a, from, to, n);
            && (q in b <==> ParentPage(q, from, to) in a)
            && (q in b ==> b[q] == a[ParentPage(q, from, to)])
  {
  }

  lemma KeptPage(a: Spaces, from: nat, to: nat, n: nat, q: Pg)
    requires IsUser(q) && !InSlots(q.d, to, n)
    ensures var b := EagerFork(a, a, from, to, n); (q in b <==> q in a) && (q in b ==> b[q] == a[q])
  {
  }

  // ---------- What a task finds in its own memory ----------

  /** Word `j` of a page as a program reads it; a page that is not there yet reads as 0. */
  function Word0(a: Spaces, low: seq<Page>, p: Pg, j: nat): Word
    requires j < 1024
  {
    if p in a then Data(a[p], low)[j] else 0
  }

  /** A store is read back, and no other word of any task reads differently. */
  lemma StoredWord(w: World, kernel: Spaces, t: nat, page: nat, k: nat, v: Word, byKernel: bool, out: Outcome, q: Pg, j: nat)
    requires WorldOk(w) && Legal(w, Write(t, page, k, v, byKernel)) && out.ok && j < 1024
    ensures var w' := EagerStep(w, kernel, Write(t, page, k, v, byKernel), out);
            && w'.status == w.status && TaskPage(t, page) in w'.spaces && w'.spaces[TaskPage(t, page)].Own?
            && Word0(w'.spaces, out.low, q, j) == (if q == TaskPage(t, page) && j == k then v else Word0(w.spaces, out.low, q, j))
  {
  }

  /** A load changes no word. */
  lemma LoadedWord(w: World, kernel: Spaces, t: nat, page: nat, out: Outcome, q: Pg, j: nat)
    requires WorldOk(w) && Legal(w, Touch(t, page)) && out.ok && j < 1024
    ensures var w' := EagerStep(w, kernel, Touch(t, page), out);
            && w'.status == w.status && TaskPage(t, page) in w'.spaces
            && Word0(w'.spaces, out.low, q, j) == Word0(w.spaces, out.low, q, j)
  {
  }

  /** What a task has stored it reads back after any run in which it does nothing, whatever the others do. */
  lemma ReadBack(w: World, kernel: Spaces, t: nat, page: nat, k: nat, v: Word, byKernel: bool, out: Outcome,
                 ops: seq<Op>, outs: seq<Outcome>, low: seq<Page>)
    requires WorldOk(w) && Legal(w, Write(t, page, k, v, byKernel)) && out.ok && |ops| == |outs|
    requires forall i | 0 <= i < |ops| :: !ActsAs(ops[i], t)
    ensures var w' := EagerStep(w, kernel, Write(t, page, k, v, byKernel), out);
            && WorldOk(w')
            && Word0(EagerRun(w', kernel, ops, outs).spaces, low, TaskPage(t, page), k) == v
  {
    var op, p := Write(t, page, k, v, byKernel), TaskPage(t, page);
    var w' := EagerStep(w, kernel, op, out);
    EagerStepOk(w, kernel, op, out);
    StoredWord(w, kernel, t, page, k, v, byKernel, out, p, k);
    AccessOwned(w, t, page);
    Isolation(w', kernel, ops, outs, t);
    var u := EagerRun(w', kernel, ops, outs);
    assert p in SpaceOfTask(w', t) && SpaceOfTask(w', t)[p] == w'.spaces[p];
    assert p in SpaceOfTask(u, t) && SpaceOfTask(u, t)[p] == u.spaces[p];
  }

  /** After exit or exec, or an access for which memory did not suffice, a task has no pages at all, and after exec it may have
      any of its 64 MB. */
  lemma Emptied(w: World, kernel: Spaces, op: Op, t: nat, out: Outcome)
    requires WorldOk(w) && Legal(w, op)
    requires op == Exit(t) || (op.Exec? && op.task == t) || (!out.ok && (op.Write? || op.Touch?) && op.task == t)
    ensures var w' := EagerStep(w, kernel, op, out);
            && (forall p | p in w'.spaces :: p.d / 16 != t)
            && (forall p | p in w.spaces && p.d / 16 != t :: p in w'.spaces && w'.spaces[p] == w.spaces[p])
            && w'.status == w.status[t := if op.Exec? then Alive(op.codeLimit, TASK_SIZE) else Zombie]
  {
    forall p | p in w.spaces ensures p.d / 16 == t <==> InSlots(p.d, 16 * t, SlotsFor(w.status[t].data)) {
      NotOf(w, t, p);
    }
  }

  /** A zombie that is released leaves its slot free, and a fork that fails leaves everything. */
  lemma Released(w: World, kernel: Spaces, op: Op, out: Outcome)
    requires WorldOk(w) && Legal(w, op) && (op.Reap? || (op.Fork? && !out.ok))
    ensures var w' := EagerStep(w, kernel, op, out);
            && w'.spaces == w.spaces && |w'.status| == |w.status|
            && forall i | 0 <= i < |w.status| :: if op.Reap? && i == op.task then w'.status[i].Free? else w'.status[i] == w.status[i]
  {
  }

  /** A task can use exactly the pages of the slots that its data limit reaches into, so every byte below the limit. */
  lemma Usable(w: World, t: nat, i: nat)
    requires WorldOk(w) && 1 <= t < NR_TASKS && w.status[t].Alive?
    ensures i < w.status[t].data ==> CanAccess(w, t, i / 4096)
    ensures SLOT_SIZE * (i / SLOT_SIZE) >= w.status[t].data ==> !CanAccess(w, t, i / 4096)
  {
    SlotsFit(w.status[t].data);
    SlotsCover(w.status[t].data);
    hide SlotsFor;
  }

  /** A page reads the same for as long as low memory is constant apart from the page directory, exactly when
      it is not frame 0, the page directory itself. */
  lemma ConstantReads(c: Content)
    ensures (forall a, b | SameLow(a, b) :: Data(c, a) == Data(c, b)) <==> c != Low(0)
  {
    if c == Low(0) {
      var a := seq(LOW, _ => ZeroPage());
      var b := a[0 := ZeroPage()[0 := 1]];
      assert SameLow(a, b) && Data(c, a)[0] != Data(c, b)[0];
    }
  }
}
