/** sleep_on and wake_up (kernel/sched.c). A wait queue is one pointer; the rest of it is a chain through the local
    variables `tmp` of the sleeping tasks. A task sleeps in the middle of sleep_on, so sleep_on is two steps: SleepBegin
    up to schedule(), Resume after it. Between them anything may happen. */
module WaitQueue {
  import opened Collections

  const NULL := -1

  // ---------- Chains ----------

  /** `queued[q]` are the tasks asleep on queue `q`, last come first; each chain of `woken` is what is left of a queue
      that was woken: its first task may run but has not run yet, the others still sleep. */
  datatype Chains = Chains(queued: seq<seq<nat>>, woken: seq<seq<nat>>)

  datatype Op = Sleep(t: nat, q: nat) | Wake(q: nat) | Resume(t: nat)

  function First(chain: seq<nat>): int {
    if chain == [] then NULL else chain[0]
  }

  predicate InSome(chains: seq<seq<nat>>, t: nat) {
    exists i | 0 <= i < |chains| :: t in chains[i]
  }

  /** `t` is inside sleep_on. */
  predicate Asleep(c: Chains, t: nat) {
    InSome(c.queued, t) || InSome(c.woken, t)
  }

  /** `t` is the first of the woken chain `i`. */
  predicate Leads(c: Chains, t: nat, i: nat) {
    i < |c.woken| && c.woken[i] != [] && c.woken[i][0] == t
  }

  ghost predicate Enabled(c: Chains, op: Op) {
    match op
    case Sleep(t, q) => q < |c.queued| && t != 0 && !Asleep(c, t)
    case Wake(q) => q < |c.queued|
    case Resume(t) => exists i: nat :: Leads(c, t, i)
  }

  ghost function Step(c: Chains, op: Op): Chains
    requires Enabled(c, op)
  {
    match op
    case Sleep(t, q) => c.(queued := c.queued[q := [t] + c.queued[q]])
    case Wake(q) => if c.queued[q] == [] then c else Chains(c.queued[q := []], c.woken + [c.queued[q]])
    case Resume(t) =>
      var i: nat :| Leads(c, t, i);
      c.(woken := c.woken[i := c.woken[i][1..]])
  }

  predicate Disjoint(s: seq<nat>, r: seq<nat>) {
    forall t | t in s :: t !in r
  }

  predicate Apart(chains: seq<seq<nat>>) {
    && (forall i | 0 <= i < |chains| :: Distinct(chains[i]))
    && (forall i, j | 0 <= i < |chains| && 0 <= j < |chains| && i != j :: Disjoint(chains[i], chains[j]))
  }

  /** No task is on two chains, or twice on one. */
  predicate Separate(c: Chains) {
    && Apart(c.queued) && Apart(c.woken)
    && (forall i, j | 0 <= i < |c.queued| && 0 <= j < |c.woken| :: Disjoint(c.queued[i], c.woken[j]))
  }

  lemma StepSeparate(c: Chains, op: Op)
    requires Separate(c) && Enabled(c, op)
    ensures Separate(Step(c, op))
  {
    var d := Step(c, op);
    match op {
      case Sleep(t, q) =>
        assert d.queued[q] == [t] + c.queued[q];
        assert forall i | 0 <= i < |c.queued| :: t !in c.queued[i];
        assert forall i | 0 <= i < |c.woken| :: t !in c.woken[i];
        assert Distinct(c.queued[q]);
      case Wake(q) =>
        if c.queued[q] != [] {
          assert forall i | 0 <= i < |c.woken| :: Disjoint(c.queued[q], c.woken[i]);
          assert forall i | 0 <= i < |c.queued| && i != q :: Disjoint(c.queued[i], c.queued[q]);
        }
      case Resume(t) =>
        var i: nat :| Leads(c, t, i) && d == c.(woken := c.woken[i := c.woken[i][1..]]);
        assert Distinct(c.woken[i]) && forall s | s in d.woken[i] :: s in c.woken[i];
    }
  }

  /** A task leads at most one chain. */
  lemma LeaderOnly(c: Chains, t: nat, i: nat, j: nat)
    requires Separate(c) && Leads(c, t, i) && Leads(c, t, j)
    ensures i == j
  {
    assert t in c.woken[i] && (i != j ==> Disjoint(c.woken[i], c.woken[j]));
  }

  lemma ResumeStep(c: Chains, t: nat, i: nat)
    requires Separate(c) && Leads(c, t, i)
    ensures Enabled(c, Resume(t)) && Step(c, Resume(t)) == c.(woken := c.woken[i := c.woken[i][1..]])
  {
    var j: nat :| Leads(c, t, j) && Step(c, Resume(t)) == c.(woken := c.woken[j := c.woken[j][1..]]);
    LeaderOnly(c, t, i, j);
  }

  // ---------- Runs: nobody is forgotten ----------

  ghost predicate Runs(c: Chains, ops: seq<Op>, d: Chains)
    decreases |ops|
  {
    if ops == [] then d == c
    else Enabled(c, ops[0]) && Runs(Step(c, ops[0]), ops[1..], d)
  }

  lemma {:induction false} RunSeparate(c: Chains, ops: seq<Op>, d: Chains)
    requires Separate(c) && Runs(c, ops, d)
    ensures Separate(d) && |d.queued| == |c.queued| && |d.woken| >= |c.woken|
    decreases |ops|
  {
    if ops != [] {
      StepSeparate(c, ops[0]);
      RunSeparate(Step(c, ops[0]), ops[1..], d);
    }
  }

  lemma {:induction false} RunMore(c: Chains, ops: seq<Op>, d: Chains, op: Op)
    requires Runs(c, ops, d) && Enabled(d, op)
    ensures Runs(c, ops + [op], Step(d, op))
    decreases |ops|
  {
    if ops == [] {
      assert (ops + [op])[1..] == [];
    } else {
      RunMore(Step(c, ops[0]), ops[1..], d, op);
      assert (ops + [op])[1..] == ops[1..] + [op];
    }
  }

  /** A task that went to sleep on a queue stays on it until the queue is woken, whatever others do. */
  lemma {:induction false} StaysQueued(c: Chains, q: nat, ops: seq<Op>, d: Chains)
    requires Runs(c, ops, d) && Wake(q) !in ops && q < |c.queued|
    ensures q < |d.queued| && forall t | t in c.queued[q] :: t in d.queued[q]
    decreases |ops|
  {
    if ops != [] {
      assert ops[0] in ops;
      StaysQueued(Step(c, ops[0]), q, ops[1..], d);
    }
  }

  /** A task that goes to sleep is first of its queue; those that were there are behind it, and the other queues and the woken
      chains are the same. */
  lemma SleepsFirst(c: Chains, t: nat, q: nat)
    requires Enabled(c, Sleep(t, q))
    ensures var d := Step(c, Sleep(t, q));
            && |d.queued| == |c.queued| && d.woken == c.woken && Asleep(d, t)
            && d.queued[q] != [] && d.queued[q][0] == t && d.queued[q][1..] == c.queued[q]
            && forall r | 0 <= r < |c.queued| && r != q :: d.queued[r] == c.queued[r]
  {
    assert t in Step(c, Sleep(t, q)).queued[q];
  }

  /** As long as its queue is not woken it stays there, behind those that came later, and cannot go on. */
  lemma {:induction false} SleepsOn(c: Chains, t: nat, q: nat, later: seq<nat>, earlier: seq<nat>, ops: seq<Op>, d: Chains)
    requires Separate(c) && q < |c.queued| && c.queued[q] == later + [t] + earlier
    requires Runs(c, ops, d) && Wake(q) !in ops
    ensures Separate(d) && q < |d.queued| && exists l :: d.queued[q] == l + [t] + earlier && |l| >= |later|
    ensures Asleep(d, t) && !Enabled(d, Resume(t)) && Resume(t) !in ops
    decreases |ops|
  {
    if ops == [] {
      QueuedCannotGo(d, t, q);
    } else {
      QueuedCannotGo(c, t, q);
      var e := Step(c, ops[0]);
      StepSeparate(c, ops[0]);
      assert ops[0] in ops;
      var l := if ops[0].Sleep? && ops[0].q == q then [ops[0].t] + later else later;
      assert e.queued[q] == l + [t] + earlier;
      SleepsOn(e, t, q, l, earlier, ops[1..], d);
    }
  }

  lemma QueuedCannotGo(c: Chains, t: nat, q: nat)
    requires Separate(c) && q < |c.queued| && t in c.queued[q]
    ensures Asleep(c, t) && !Enabled(c, Resume(t))
  {
    forall i: nat | i < |c.woken| ensures t !in c.woken[i] { assert Disjoint(c.queued[q], c.woken[i]); }
  }

  /** A task sleeps on `q`, others do as they like, `q` is woken, and others again do as they like: the task can go on exactly
      when those that came after it have run, however many were asleep there before. */
  lemma TurnComes(c: Chains, t: nat, q: nat, ops: seq<Op>, d: Chains, more: seq<Op>, e: Chains)
    requires Separate(c) && Enabled(c, Sleep(t, q)) && Runs(Step(c, Sleep(t, q)), ops, d) && Wake(q) !in ops
    requires Enabled(d, Wake(q)) && Runs(Step(d, Wake(q)), more, e)
    ensures q < |d.queued| && t in d.queued[q] && |c.queued[q]| < |d.queued[q]|
    ensures var later, ran := |d.queued[q]| - 1 - |c.queued[q]|, Ran(Step(d, Wake(q)), |d.woken|, more);
            ran <= later ==> Asleep(e, t) && (Enabled(e, Resume(t)) <==> ran == later)
  {
    StepSeparate(c, Sleep(t, q));
    SleepsFirst(c, t, q);
    var f := Step(c, Sleep(t, q));
    assert f.queued[q] == [] + [t] + c.queued[q];
    SleepsOn(f, t, q, [], c.queued[q], ops, d);
    var l :| d.queued[q] == l + [t] + c.queued[q];
    NoLostWakeUp(d, q, more, e);
    StepSeparate(d, Wake(q));
    RunSeparate(Step(d, Wake(q)), more, e);
    var ran := Ran(Step(d, Wake(q)), |d.woken|, more);
    if ran <= |l| {
      var chain := d.queued[q][ran..];
      assert chain[|l| - ran] == t && e.woken[|d.woken|] == chain;
      assert t in e.woken[|d.woken|];
      assert ran == |l| ==> Leads(e, t, |d.woken|);
      forall i: nat | Leads(e, t, i) ensures ran == |l| {
        ChainPlace(e, t, |d.woken|, i, |l| - ran);
      }
    }
  }

  /** A task that leads some chain leads the chain it is on. */
  lemma ChainPlace(c: Chains, t: nat, i: nat, j: nat, k: nat)
    requires Separate(c) && i < |c.woken| && k < |c.woken[i]| && c.woken[i][k] == t && Leads(c, t, j)
    ensures i == j && k == 0
  {
    assert t in c.woken[i] && t in c.woken[j];
    assert i != j ==> Disjoint(c.woken[i], c.woken[j]);
    assert Distinct(c.woken[i]);
  }

  /** In the pointers: a task on a queue is not runnable, and one on a woken chain exactly when it leads it. */
  lemma SleepersStand(queue: seq<int>, tmp: seq<int>, runnable: seq<bool>, c: Chains, t: nat)
    requires Rep(queue, tmp, runnable, c) && Asleep(c, t)
    ensures t < |runnable| && (InSome(c.queued, t) ==> !runnable[t]) && (runnable[t] <==> Enabled(c, Resume(t)))
  {
    RunnableLeads(queue, tmp, runnable, c, t);
  }

  /** How many tasks of woken chain `i` run during `ops`. */
  ghost function Ran(c: Chains, i: nat, ops: seq<Op>): nat
    decreases |ops|
  {
    if ops == [] || !Enabled(c, ops[0]) then 0 else
    (if ops[0].Resume? && Leads(c, ops[0].t, i) then 1 else 0) + Ran(Step(c, ops[0]), i, ops[1..])
  }

  /** Once woken, a chain only gets shorter, from its front: nothing joins it, and nobody leaves it out of turn. */
  lemma {:induction false} ChainDrains(c: Chains, i: nat, ops: seq<Op>, d: Chains)
    requires Separate(c) && i < |c.woken| && Runs(c, ops, d)
    ensures i < |d.woken| && Ran(c, i, ops) <= |c.woken[i]| && d.woken[i] == c.woken[i][Ran(c, i, ops)..]
    decreases |ops|
  {
    if ops != [] {
      var op := ops[0];
      var e := Step(c, op);
      StepSeparate(c, op);
      if op.Resume? {
        var j: nat :| Leads(c, op.t, j);
        ResumeStep(c, op.t, j);
        if Leads(c, op.t, i) { LeaderOnly(c, op.t, i, j); }
      }
      ChainDrains(e, i, ops[1..], d);
    }
  }

  /** No lost wake-up. After wake_up(q), as long as not everybody who was asleep on `q` has run, the next of them can
      run; they run in order, latest sleeper first, and when |sleepers| of them have run, all have. */
  lemma NoLostWakeUp(c: Chains, q: nat, ops: seq<Op>, d: Chains)
    requires Separate(c) && q < |c.queued| && c.queued[q] != []
    requires Runs(Step(c, Wake(q)), ops, d)
    ensures var sleepers, ran := c.queued[q], Ran(Step(c, Wake(q)), |c.woken|, ops);
            && ran <= |sleepers| && |c.woken| < |d.woken| && d.woken[|c.woken|] == sleepers[ran..]
            && (ran < |sleepers| ==> Enabled(d, Resume(sleepers[ran])))
            && (forall t | t in sleepers[ran..] :: Asleep(d, t))
  {
    var e := Step(c, Wake(q));
    StepSeparate(c, Wake(q));
    ChainDrains(e, |c.woken|, ops, d);
    var sleepers, ran := c.queued[q], Ran(e, |c.woken|, ops);
    if ran < |sleepers| {
      assert Leads(d, sleepers[ran], |c.woken|);
    }
  }

  // ---------- The pointers ----------

  function Next(chain: seq<nat>, a: int): int
    requires 0 <= a < |chain|
  {
    if a + 1 < |chain| then chain[a + 1] else NULL
  }

  /** Each task of the chain remembers the next one. */
  predicate Linked(tmp: seq<int>, chain: seq<nat>) {
    forall a | 0 <= a < |chain| :: 0 < chain[a] < |tmp| && tmp[chain[a]] == Next(chain, a)
  }

  predicate Rep(queue: seq<int>, tmp: seq<int>, runnable: seq<bool>, c: Chains) {
    && Separate(c) && |queue| == |c.queued| && |tmp| == |runnable|
    && (forall q | 0 <= q < |queue| :: queue[q] == First(c.queued[q]) && Linked(tmp, c.queued[q])
          && forall t | t in c.queued[q] :: t < |tmp| && !runnable[t])
    && (forall i | 0 <= i < |c.woken| :: Linked(tmp, c.woken[i])
          && forall t | t in c.woken[i] :: t < |tmp| && (runnable[t] <==> t == c.woken[i][0]))
  }

  lemma ResumeRep(queue: seq<int>, tmp: seq<int>, runnable: seq<bool>, c: Chains, t: nat)
    requires Rep(queue, tmp, runnable, c) && Asleep(c, t) && t < |runnable| && runnable[t]
    ensures t < |tmp| && (tmp[t] == NULL || 0 <= tmp[t] < |runnable|) && Enabled(c, Resume(t))
    ensures Rep(queue, tmp, if tmp[t] == NULL then runnable else runnable[tmp[t] := true], Step(c, Resume(t)))
  {
    RunnableLeads(queue, tmp, runnable, c, t);
    var i: nat :| Leads(c, t, i);
    ResumeStep(c, t, i);
    StepSeparate(c, Resume(t));
    ApartFrom(c, i);
    hide Separate, Asleep, Enabled;
    var d := Step(c, Resume(t));
    var chain := c.woken[i];
    assert Linked(tmp, chain) && tmp[chain[0]] == Next(chain, 0);
    var r := if tmp[t] == NULL then runnable else runnable[tmp[t] := true];
    forall j | 0 <= j < |d.woken|
      ensures Linked(tmp, d.woken[j]) && forall s | s in d.woken[j] :: s < |tmp| && (r[s] <==> s == d.woken[j][0])
    {
      assert Linked(tmp, c.woken[j]);
      if j == i {
        DropFirst(tmp, chain);
      }
    }
  }

  lemma ApartFrom(c: Chains, i: nat)
    requires Separate(c) && i < |c.woken|
    ensures Distinct(c.woken[i])
    ensures forall j | 0 <= j < |c.woken| && j != i :: Disjoint(c.woken[j], c.woken[i])
    ensures forall q | 0 <= q < |c.queued| :: Disjoint(c.queued[q], c.woken[i])
  {
  }

  /** A task inside sleep_on is runnable exactly if it leads a woken chain. */
  lemma RunnableLeads(queue: seq<int>, tmp: seq<int>, runnable: seq<bool>, c: Chains, t: nat)
    requires Rep(queue, tmp, runnable, c) && Asleep(c, t)
    ensures t < |runnable| && (runnable[t] <==> Enabled(c, Resume(t)))
  {
    if i: nat :| i < |c.woken| && t in c.woken[i] {
      assert runnable[t] ==> Leads(c, t, i);
    }
    if i: nat :| Leads(c, t, i) {
      assert runnable[t];
    }
  }

  lemma RepLength(queue: seq<int>, tmp: seq<int>, runnable: seq<bool>, c: Chains)
    requires Rep(queue, tmp, runnable, c)
    ensures |tmp| == |runnable|
  {
  }

  lemma DropFirst(tmp: seq<int>, chain: seq<nat>)
    requires Linked(tmp, chain) && chain != []
    ensures Linked(tmp, chain[1..])
  {
    forall a | 0 <= a < |chain| - 1 ensures tmp[chain[1..][a]] == Next(chain[1..], a) {
      assert tmp[chain[a + 1]] == Next(chain, a + 1);
    }
  }

  class Tasks {
    const queue: array<int>         // the wait queues
    const tmp: array<int>           // the local variable of sleep_on, for each task
    const runnable: array<bool>     // state == TASK_RUNNING
    ghost var chains: Chains

    ghost predicate Valid()
      reads this, queue, tmp, runnable
    {
      queue != tmp && Rep(queue[..], tmp[..], runnable[..], chains)
    }

    constructor (tasks: nat, queues: nat)
      ensures Valid() && fresh(queue) && fresh(tmp) && fresh(runnable)
      ensures queue.Length == queues && tmp.Length == tasks && chains == Chains(seq(queues, _ => []), [])
    {
      queue := new int[queues](_ => NULL);
      tmp := new int[tasks](_ => NULL);
      runnable := new bool[tasks](_ => true);
      chains := Chains(seq(queues, _ => []), []);
    }

    /** The first half of sleep_on, by the running task. Task 0 may not sleep: the kernel panics. */
    method SleepBegin(t: nat, q: nat)
      requires Valid() && 0 < t < tmp.Length && q < queue.Length && !Asleep(chains, t)
      modifies this`chains, queue, tmp, runnable
      ensures Valid() && Enabled(old(chains), Sleep(t, q)) && chains == Step(old(chains), Sleep(t, q))
      ensures queue[..] == old(queue[..])[q := t] && tmp[..] == old(tmp[..])[t := old(queue[q])]
      ensures runnable[..] == old(runnable[..])[t := false]
    {
      StepSeparate(chains, Sleep(t, q));
      tmp[t] := queue[q];
      queue[q] := t;
      runnable[t] := false;
      chains := Step(chains, Sleep(t, q));
    }

    method WakeUp(q: nat)
      requires Valid() && q < queue.Length
      modifies this`chains, queue, runnable
      ensures Valid() && Enabled(old(chains), Wake(q)) && chains == Step(old(chains), Wake(q))
      ensures queue[..] == old(queue[..])[q := NULL]
      ensures old(queue[q]) == NULL ==> runnable[..] == old(runnable[..])
      ensures old(queue[q]) != NULL ==>
                0 <= old(queue[q]) < runnable.Length && runnable[..] == old(runnable[..])[old(queue[q]) := true]
    {
      StepSeparate(chains, Wake(q));
      if queue[q] != NULL {
        runnable[queue[q]] := true;
        queue[q] := NULL;
      }
      chains := Step(chains, Wake(q));
    }

    /** The second half of sleep_on, when the scheduler has picked the task again. */
    method Resume(t: nat)
      requires Valid() && t < runnable.Length && Asleep(chains, t) && runnable[t]
      modifies this`chains, runnable
      ensures Valid() && Enabled(old(chains), Op.Resume(t)) && chains == Step(old(chains), Op.Resume(t))
      ensures t < tmp.Length && if tmp[t] == NULL then runnable[..] == old(runnable[..])
              else 0 <= tmp[t] < runnable.Length && runnable[..] == old(runnable[..])[tmp[t] := true]
    {
      hide Rep, Asleep, Enabled;
      ResumeRep(queue[..], tmp[..], runnable[..], chains, t);
      RepLength(queue[..], tmp[..], runnable[..], chains);
      if tmp[t] != NULL {
        runnable[tmp[t]] := true;
      }
      chains := Step(chains, Op.Resume(t));
    }

    /** Any interleaving of sleepers, wakers and wakings. */
    method Run(ops: seq<Op>, ghost end: Chains)
      requires Valid() && Runs(chains, ops, end)
      requires forall op | op in ops && op.Sleep? :: op.t < tmp.Length
      modifies this`chains, queue, tmp, runnable
      ensures Valid() && chains == end
    {
      hide Rep, Enabled, Step;
      var i := 0;
      while i < |ops|
        invariant 0 <= i <= |ops| && Valid() && Runs(chains, ops[i..], end)
      {
        assert ops[i..][0] == ops[i] && ops[i..][1..] == ops[i + 1..];
        Do(ops[i]);
        i := i + 1;
      }
    }

    method Do(op: Op)
      requires Valid() && Enabled(chains, op) && (op.Sleep? ==> op.t < tmp.Length)
      modifies this`chains, queue, tmp, runnable
      ensures Valid() && chains == Step(old(chains), op)
    {
      Ready(op);
      hide Rep, Enabled, Step;
      match op {
        case Sleep(t, q) => SleepBegin(t, q);
        case Wake(q) => WakeUp(q);
        case Resume(t) => Resume(t);
      }
    }

    lemma Ready(op: Op)
      requires Valid() && Enabled(chains, op)
      ensures match op
              case Sleep(t, q) => t != 0 && q < queue.Length && !Asleep(chains, t)
              case Wake(q) => q < queue.Length
              case Resume(t) => t < runnable.Length && Asleep(chains, t) && runnable[t]
    {
      if op.Resume? {
        var i: nat :| Leads(chains, op.t, i);
        assert op.t in chains.woken[i];
      }
    }
  }
}
