/** The scheduler (kernel/sched.c): schedule, do_timer and sys_nice. */
module Scheduler {
  const NR_TASKS := 64
  const SIGALRM := 14

  datatype RunState = Running | Interruptible | Uninterruptible | Zombie | Stopped

  datatype Slot =
    | Empty
    | Task(state: RunState, counter: int, priority: int, alarm: int, signal: set<nat>)

  type Table = s: seq<Slot> | |s| == NR_TASKS witness seq(NR_TASKS, _ => Empty)

  predicate Runnable(s: Slot) { s.Task? && s.state == Running }

  /** What schedule needs to end: priorities are positive. */
  predicate SlotOk(s: Slot) {
    s.Task? ==> 0 < s.priority && 0 <= s.counter
  }

  predicate TableOk(t: Table) {
    forall i | 0 <= i < NR_TASKS :: SlotOk(t[i])
  }

  /** Time slices are less than twice the priority. */
  predicate InRange(t: Table) {
    forall i | 0 <= i < NR_TASKS && t[i].Task? :: t[i].counter <= 2 * t[i].priority - 1
  }

  // ---------- The parts of schedule ----------

  /** A task whose alarm is past is signalled; a signalled task leaves interruptible sleep. */
  function Alert(s: Slot, jiffies: int): Slot {
    if s.Empty? then s else
    var a := if s.alarm != 0 && s.alarm < jiffies then s.(signal := s.signal + {SIGALRM}, alarm := 0) else s;
    if a.signal != {} && a.state == Interruptible then a.(state := Running) else a
  }

  function Alerted(t: Table, jiffies: int): Table {
    seq(NR_TASKS, i requires 0 <= i < NR_TASKS => if i == 0 then t[0] else Alert(t[i], jiffies))
  }

  /** Every task but task 0 gets its priority, and half of what it had. */
  function Recharge(s: Slot): Slot {
    if s.Empty? then s else s.(counter := Half(s.counter) + s.priority)
  }

  /** An arithmetic shift. */
  function Half(n: int): int { n / 2 }

  /** The slice after a recharge: the priority, and half of what was left. */
  lemma RechargeIs(s: Slot)
    requires s.Task?
    ensures var c := Recharge(s).counter - s.priority;
            Recharge(s) == s.(counter := Recharge(s).counter) && (s.counter == 2 * c || s.counter == 2 * c + 1)
  {
  }

  /** An alarm that is past is signalled once. A task that has a signal is not left in interruptible sleep; nothing else wakes. */
  lemma AlertIs(s: Slot, jiffies: int)
    requires s.Task?
    ensures var a, past := Alert(s, jiffies), s.alarm != 0 && s.alarm < jiffies;
            && a == s.(state := a.state, signal := a.signal, alarm := a.alarm)
            && a.alarm == (if past then 0 else s.alarm) && (forall g :: g in a.signal <==> g in s.signal || (past && g == 14))
            && (a.state == Running <==> s.state == Running || (s.state == Interruptible && a.signal != {}))
            && (a.state != Running ==> a.state == s.state)
  {
  }

  function Recharged(t: Table): Table {
    seq(NR_TASKS, i requires 0 <= i < NR_TASKS => if i == 0 then t[0] else Recharge(t[i]))
  }

  /** `next` is the task to run: it is runnable, no other runnable task has a larger time slice left, and none of a higher
      number has the same. */
  predicate Chosen(t: Table, next: nat) {
    && 0 < next < NR_TASKS && Runnable(t[next])
    && (forall i | 0 < i < NR_TASKS && Runnable(t[i]) :: t[i].counter <= t[next].counter)
    && (forall i | next < i < NR_TASKS && Runnable(t[i]) :: t[i].counter < t[next].counter)
  }

  predicate AnyRunnable(t: Table) {
    exists i | 0 < i < NR_TASKS :: Runnable(t[i])
  }

  predicate AnySlice(t: Table) {
    exists i | 0 < i < NR_TASKS :: Runnable(t[i]) && t[i].counter > 0
  }

  /** What schedule does: `u` and `next` from `t`. */
  predicate Scheduled(t: Table, jiffies: int, u: Table, next: nat) {
    var a := Alerted(t, jiffies);
    if !AnyRunnable(a) then u == a && next == 0
    else u == (if AnySlice(a) then a else Recharged(a)) && Chosen(u, next) && u[next].counter > 0
  }

  /** One tick: the running task loses one unit of its time slice, and in user mode, with none left, the processor. */
  predicate Ticked(t: Table, current: nat, user: bool, jiffies: int, u: Table, next: nat) {
    current < NR_TASKS && t[current].Task? &&
    var c := t[current].counter - 1;
    if c > 0 then u == t[current := t[current].(counter := c)] && next == current
    else
      var z := t[current := t[current].(counter := 0)];
      if user then Scheduled(z, jiffies, u, next) else u == z && next == current
  }

  function SetState(t: Table, i: nat, state: RunState): Table
    requires i < NR_TASKS && t[i].Task?
  {
    t[i := t[i].(state := state)]
  }

  function Niced(t: Table, i: nat, increment: int): Table
    requires i < NR_TASKS && t[i].Task?
  {
    if t[i].priority - increment > 0 then t[i := t[i].(priority := t[i].priority - increment)] else t
  }

  /** A task that lowers its priority may keep a time slice that is now too long. */
  lemma NiceInRange(t: Table, i: nat, increment: int)
    requires TableOk(t) && InRange(t) && i < NR_TASKS && t[i].Task?
    ensures InRange(Niced(t, i, increment)) <==>
            (t[i].priority - increment <= 0 || t[i].counter <= 2 * (t[i].priority - increment) - 1)
  {
    var u := Niced(t, i, increment);
    assert forall j | 0 <= j < NR_TASKS && j != i :: u[j] == t[j];
    assert u[i].Task?;
  }

  /** A task that gives up the processor for good, or to sleep without a signal or a past alarm, is in the state it asked for, and
      another one runs; no other task's state changes, except that signalled ones wake. */
  lemma GivesUp(t: Table, i: nat, state: RunState, jiffies: int, u: Table, next: nat)
    requires 0 < i < NR_TASKS && t[i].Task? && state != Running && Scheduled(SetState(t, i, state), jiffies, u, next)
    requires state == Interruptible ==> t[i].signal == {} && (t[i].alarm == 0 || t[i].alarm >= jiffies)
    ensures u[i].Task? && u[i].state == state && next != i
    ensures forall j | 0 <= j < NR_TASKS && j != i && t[j].Task? && t[j].state != Interruptible ::
              u[j].Task? && u[j].state == t[j].state
  {
  }

  /** Waking makes a task runnable; nice changes one priority, by what is asked. */
  lemma WakesUp(t: Table, i: nat, increment: int)
    requires i < NR_TASKS && t[i].Task?
    ensures var u := SetState(t, i, Running); Runnable(u[i]) && forall j | 0 <= j < NR_TASKS && j != i :: u[j] == t[j]
    ensures var u := Niced(t, i, increment);
            && u[i].Task? && u[i] == t[i].(priority := u[i].priority)
            && (t[i].priority > increment ==> u[i].priority == t[i].priority - increment)
            && (t[i].priority <= increment ==> u[i].priority == t[i].priority)
            && forall j | 0 <= j < NR_TASKS && j != i :: u[j] == t[j]
  {
  }

  lemma RechargedOk(t: Table)
    requires TableOk(t)
    ensures TableOk(Recharged(t))
    ensures AnyRunnable(t) ==> AnySlice(Recharged(t))
    ensures InRange(t) ==> InRange(Recharged(t))
  {
    var r := Recharged(t);
    forall i | 0 <= i < NR_TASKS ensures SlotOk(r[i]) {
      assert SlotOk(t[i]);
    }
    if AnyRunnable(t) {
      var i :| 0 < i < NR_TASKS && Runnable(t[i]);
      assert SlotOk(t[i]) && Runnable(r[i]) && r[i].counter > 0;
    }
  }

  lemma AlertedOk(t: Table, jiffies: int)
    requires TableOk(t)
    ensures TableOk(Alerted(t, jiffies))
  {
    forall i | 0 <= i < NR_TASKS ensures SlotOk(Alerted(t, jiffies)[i]) {
      assert SlotOk(t[i]);
    }
  }

  // ---------- How long a runnable task waits ----------

  datatype State = State(t: Table, current: nat)

  datatype Event =
    | Tick(user: bool, jiffies: int)
    | GiveUp(state: RunState, jiffies: int)   // the running task sleeps, or just calls schedule
    | Wake(i: nat)                            // or any other change of a task's state to running

  predicate Happens(s: State, e: Event, u: State) {
    s.current < NR_TASKS && s.t[s.current].Task? &&
    match e
    case Tick(user, jiffies) => Ticked(s.t, s.current, user, jiffies, u.t, u.current)
    case GiveUp(state, jiffies) => Scheduled(SetState(s.t, s.current, state), jiffies, u.t, u.current)
    case Wake(i) => i < NR_TASKS && s.t[i].Task? && u == s.(t := SetState(s.t, i, Running))
  }

  /** Task `w` could run, and another one does. */
  predicate Waits(s: State, w: nat) {
    w < NR_TASKS && w != 0 && Runnable(s.t[w]) && s.current != w
  }

  function Slice(s: Slot): nat { if s.Task? && s.counter > 0 then s.counter else 0 }
  function MaxSlice(s: Slot): nat { if s.Task? && s.priority > 0 then 2 * s.priority - 1 else 0 }

  /** All that is left of the time slices of the first `n` tasks, and all they can get. */
  function Slices(t: Table, n: nat): nat
    requires n <= NR_TASKS
  {
    if n == 0 then 0 else Slices(t, n - 1) + Slice(t[n - 1])
  }

  function Bound(t: Table, n: nat): nat
    requires n <= NR_TASKS
  {
    if n == 0 then 0 else Bound(t, n - 1) + MaxSlice(t[n - 1])
  }

  lemma {:induction false} SlicesBound(t: Table, n: nat, w: nat)
    requires n <= NR_TASKS && TableOk(t) && InRange(t)
    ensures Slices(t, n) <= Bound(t, n)
    ensures w < n && t[w].Task? && t[w].counter == 0 ==> Slices(t, n) < Bound(t, n)
    ensures w < n && t[w].Task? && t[w].counter > 0 ==> Slices(t, n) > 0
  {
    if n > 0 {
      SlicesBound(t, n - 1, w);
      assert SlotOk(t[n - 1]);
    }
  }

  lemma {:induction false} SlicesSame(t: Table, u: Table, n: nat)
    requires n <= NR_TASKS && forall i | 0 <= i < NR_TASKS :: Slice(u[i]) == Slice(t[i])
    ensures Slices(u, n) == Slices(t, n)
  {
    if n > 0 { SlicesSame(t, u, n - 1); }
  }

  lemma {:induction false} SlicesLess(t: Table, u: Table, k: nat, n: nat)
    requires n <= NR_TASKS && k < NR_TASKS && forall i | 0 <= i < NR_TASKS && i != k :: Slice(u[i]) == Slice(t[i])
    ensures Slices(u, n) == if k < n then Slices(t, n) - Slice(t[k]) + Slice(u[k]) else Slices(t, n)
  {
    if n > 0 { SlicesLess(t, u, k, n - 1); }
  }

  lemma {:induction false} BoundSame(t: Table, u: Table, n: nat)
    requires n <= NR_TASKS && forall i | 0 <= i < NR_TASKS :: MaxSlice(u[i]) == MaxSlice(t[i])
    ensures Bound(u, n) == Bound(t, n)
  {
    if n > 0 { BoundSame(t, u, n - 1); }
  }

  /** All time slices, and one more if the running task has none: a tick in user mode then takes the processor from it. */
  function Left(s: State): nat
    requires s.current < NR_TASKS
  {
    Slices(s.t, NR_TASKS) + if Slice(s.t[s.current]) == 0 then 1 else 0
  }

  /** How many user ticks `w` can still have to wait. */
  function Measure(s: State, w: nat): int
    requires s.current < NR_TASKS && w < NR_TASKS
  {
    if Slice(s.t[w]) > 0 then Left(s) - 1 else Left(s) + Bound(s.t, NR_TASKS)
  }

  predicate StateOk(s: State) {
    s.current < NR_TASKS && TableOk(s.t) && InRange(s.t)
  }

  lemma MeasureBound(s: State, w: nat)
    requires StateOk(s) && Waits(s, w)
    ensures 0 <= Measure(s, w) <= 2 * Bound(s.t, NR_TASKS)
  {
    SlicesBound(s.t, NR_TASKS, w);
  }

  /** After schedule, some task has a slice; either no slice has changed, or all had run out and are renewed. */
  lemma ScheduledMeasure(s: State, jiffies: int, u: State, w: nat)
    requires StateOk(s) && Scheduled(s.t, jiffies, u.t, u.current) && w < NR_TASKS && w != 0 && Runnable(s.t[w])
    ensures StateOk(u) && Bound(u.t, NR_TASKS) == Bound(s.t, NR_TASKS)
    ensures if Slices(u.t, NR_TASKS) == Slices(s.t, NR_TASKS) && Slice(u.t[w]) == Slice(s.t[w])
            then Measure(u, w) <= Measure(s, w) && Left(u) == Slices(u.t, NR_TASKS)
            else Slice(s.t[w]) == 0 && Measure(u, w) < Bound(s.t, NR_TASKS)
  {
    var a := Alerted(s.t, jiffies);
    AlertedOk(s.t, jiffies);
    assert Runnable(a[w]);
    SlicesSame(s.t, a, NR_TASKS);
    BoundSame(s.t, a, NR_TASKS);
    RechargedOk(a);
    assert InRange(a);
    if !AnySlice(a) {
      BoundSame(a, Recharged(a), NR_TASKS);
      SlicesBound(u.t, NR_TASKS, w);
      assert SlotOk(a[w]);
    }
  }

  /** Nothing that happens makes the wait longer, and every user tick makes it shorter. */
  lemma EventMeasure(s: State, e: Event, u: State, w: nat)
    requires StateOk(s) && Waits(s, w) && Happens(s, e, u) && Waits(u, w)
    ensures StateOk(u) && Bound(u.t, NR_TASKS) == Bound(s.t, NR_TASKS)
    ensures Measure(u, w) <= Measure(s, w) - if e.Tick? && e.user then 1 else 0
  {
    hide Scheduled;
    assert SlotOk(s.t[s.current]);
    match e {
      case Tick(user, jiffies) =>
        var c := s.t[s.current].counter;
        var z := s.t[s.current := s.t[s.current].(counter := if c - 1 > 0 then c - 1 else 0)];
        SlicesLess(s.t, z, s.current, NR_TASKS);
        BoundSame(s.t, z, NR_TASKS);
        assert StateOk(s.(t := z)) by { assert forall i | 0 <= i < NR_TASKS && i != s.current :: z[i] == s.t[i]; }
        if c - 1 <= 0 && user { ScheduledMeasure(s.(t := z), jiffies, u, w); }
      case GiveUp(state, jiffies) =>
        var z := SetState(s.t, s.current, state);
        SlicesSame(s.t, z, NR_TASKS);
        BoundSame(s.t, z, NR_TASKS);
        assert StateOk(s.(t := z)) by { assert forall i | 0 <= i < NR_TASKS && i != s.current :: z[i] == s.t[i]; }
        ScheduledMeasure(s.(t := z), jiffies, u, w);
      case Wake(i) =>
        SlicesSame(s.t, u.t, NR_TASKS);
        BoundSame(s.t, u.t, NR_TASKS);
        assert StateOk(u) by { assert forall j | 0 <= j < NR_TASKS && j != i :: u.t[j] == s.t[j]; }
    }
  }

  /** With fixed priorities, time slices stay in range whatever happens. */
  lemma RangeKept(s: State, e: Event, u: State)
    requires StateOk(s) && Happens(s, e, u)
    ensures InRange(u.t) && TableOk(u.t)
  {
    assert SlotOk(s.t[s.current]);
    match e {
      case Tick(user, jiffies) =>
        var c := s.t[s.current].counter;
        var z: Table := s.t[s.current := s.t[s.current].(counter := if c - 1 > 0 then c - 1 else 0)];
        assert forall i | 0 <= i < NR_TASKS && i != s.current :: z[i] == s.t[i];
        if c - 1 <= 0 && user { ScheduledRange(z, jiffies, u.t, u.current); }
      case GiveUp(state, jiffies) =>
        var z: Table := SetState(s.t, s.current, state);
        assert forall i | 0 <= i < NR_TASKS && i != s.current :: z[i] == s.t[i];
        ScheduledRange(z, jiffies, u.t, u.current);
      case Wake(i) =>
        assert forall j | 0 <= j < NR_TASKS && j != i :: u.t[j] == s.t[j];
    }
  }

  lemma ScheduledRange(t: Table, jiffies: int, u: Table, next: nat)
    requires TableOk(t) && InRange(t) && Scheduled(t, jiffies, u, next)
    ensures TableOk(u) && InRange(u)
  {
    AlertedOk(t, jiffies);
    RechargedOk(Alerted(t, jiffies));
  }

  function UserTicks(events: seq<Event>): nat {
    if events == [] then 0
    else (if events[0].Tick? && events[0].user then 1 else 0) + UserTicks(events[1..])
  }

  /** The events happen, from `trace[0]` on, and `w` could run all the time but never does. */
  predicate Starves(trace: seq<State>, events: seq<Event>, w: nat) {
    && |trace| == |events| + 1
    && (forall i | 0 <= i < |trace| :: Waits(trace[i], w))
    && (forall i | 0 <= i < |events| :: Happens(trace[i], events[i], trace[i + 1]))
  }

  lemma {:induction false} TicksMeasured(trace: seq<State>, events: seq<Event>, w: nat)
    requires Starves(trace, events, w) && StateOk(trace[0])
    ensures UserTicks(events) <= Measure(trace[0], w)
    decreases |events|
  {
    if events == [] {
      MeasureBound(trace[0], w);
    } else {
      assert Happens(trace[0], events[0], trace[1]) && Waits(trace[1], w);
      EventMeasure(trace[0], events[0], trace[1], w);
      assert Starves(trace[1..], events[1..], w);
      TicksMeasured(trace[1..], events[1..], w);
    }
  }

  /** However others sleep and wake, a task that stays runnable runs before the clock has ticked more than 2 B times in
      user mode, where B is the sum of the largest possible time slices. */
  lemma BoundedWait(trace: seq<State>, events: seq<Event>, w: nat)
    requires Starves(trace, events, w) && StateOk(trace[0])
    ensures UserTicks(events) <= 2 * Bound(trace[0].t, NR_TASKS)
  {
    TicksMeasured(trace, events, w);
    MeasureBound(trace[0], w);
  }

  class Scheduler {
    const task: array<Slot>
    var current: nat
    var jiffies: int

    ghost predicate Valid()
      reads this, task
    {
      task.Length == NR_TASKS && current < NR_TASKS && TableOk(task[..]) && task[current].Task? && task[0].Task?
    }

    constructor (first: Slot)
      requires first.Task? && SlotOk(first)
      ensures Valid() && fresh(task) && current == 0
    {
      task := new Slot[NR_TASKS](i => if i == 0 then first else Empty);
      current, jiffies := 0, 0;
    }

    /** Ends after at most one recharge. */
    method Schedule()
      requires Valid()
      modifies this`current, task
      ensures Valid() && Scheduled(old(task[..]), jiffies, task[..], current)
    {
      AlertedOk(task[..], jiffies);
      CheckAlarms();
      ghost var a: Table := task[..];
      ghost var recharged := false;
      var next, c;
      while true
        invariant task[..] == if recharged then Recharged(a) else a
        invariant TableOk(task[..]) && (recharged ==> AnyRunnable(a) && !AnySlice(a) && AnySlice(task[..]))
        decreases !recharged
      {
        next, c := PickNext();
        if c != 0 { break; }
        RechargedOk(a);
        RechargeAll();
        recharged := true;
      }
      current := next;
    }

    /** A clock tick, in user mode or in the kernel. */
    method DoTimer(user: bool)
      requires Valid()
      modifies this`current, task
      ensures Valid() && Ticked(old(task[..]), old(current), user, jiffies, task[..], current)
    {
      hide Scheduled;
      task[current] := task[current].(counter := task[current].counter - 1);
      if task[current].counter > 0 { return; }
      task[current] := task[current].(counter := 0);
      if !user { return; }
      assert task[..] == old(task[..])[current := old(task[current]).(counter := 0)];
      Schedule();
    }

    /** The running task gives up the processor in state `state`. */
    method GiveUp(state: RunState)
      requires Valid()
      modifies this`current, task
      ensures Valid() && Scheduled(SetState(old(task[..]), old(current), state), jiffies, task[..], current)
    {
      task[current] := task[current].(state := state);
      Schedule();
    }

    method Wake(i: nat)
      requires Valid() && i < NR_TASKS && task[i].Task?
      modifies task
      ensures Valid() && task[..] == SetState(old(task[..]), i, Running)
    {
      task[i] := task[i].(state := Running);
    }

    /** sys_nice: a priority never drops to zero. */
    method Nice(increment: int)
      requires Valid()
      modifies task
      ensures Valid() && task[..] == Niced(old(task[..]), current, increment)
    {
      if task[current].priority - increment > 0 {
        task[current] := task[current].(priority := task[current].priority - increment);
      }
    }

    method CheckAlarms()
      requires task.Length == NR_TASKS
      modifies task
      ensures task[..] == Alerted(old(task[..]), jiffies)
    {
      var i := NR_TASKS - 1;
      while i > 0
        invariant 0 <= i < NR_TASKS
        invariant forall j | 0 <= j < NR_TASKS :: task[j] == if j <= i then old(task[j]) else Alert(old(task[j]), jiffies)
      {
        if task[i].Task? {
          if task[i].alarm != 0 && task[i].alarm < jiffies {
            task[i] := task[i].(signal := task[i].signal + {SIGALRM}, alarm := 0);
          }
          if task[i].signal != {} && task[i].state == Interruptible {
            task[i] := task[i].(state := Running);
          }
        }
        i := i - 1;
      }
    }

    /** One pass over the table; `c` is -1 if nobody can run. */
    method PickNext() returns (next: nat, c: int)
      requires task.Length == NR_TASKS && TableOk(task[..])
      ensures c == -1 <==> !AnyRunnable(task[..])
      ensures c == -1 ==> next == 0
      ensures c >= 0 ==> Chosen(task[..], next) && c == task[next].counter
      ensures c >= -1
    {
      c, next := -1, 0;
      var i := NR_TASKS - 1;
      while i > 0
        invariant 0 <= i < NR_TASKS && c >= -1
        invariant c == -1 ==> next == 0 && forall j | i < j < NR_TASKS :: !Runnable(task[j])
        invariant c >= 0 ==>
          && i < next < NR_TASKS && Runnable(task[next]) && c == task[next].counter
          && (forall j | i < j < NR_TASKS && Runnable(task[j]) :: task[j].counter <= c)
          && (forall j | next < j < NR_TASKS && Runnable(task[j]) :: task[j].counter < c)
      {
        assert SlotOk(task[..][i]);
        if Runnable(task[i]) && task[i].counter > c {
          c, next := task[i].counter, i;
        }
        i := i - 1;
      }
    }

    method RechargeAll()
      requires task.Length == NR_TASKS
      modifies task
      ensures task[..] == Recharged(old(task[..]))
    {
      var i := NR_TASKS - 1;
      while i > 0
        invariant 0 <= i < NR_TASKS
        invariant forall j | 0 <= j < NR_TASKS :: task[j] == if j <= i then old(task[j]) else Recharge(old(task[j]))
      {
        if task[i].Task? {
          task[i] := task[i].(counter := Half(task[i].counter) + task[i].priority);
        }
        i := i - 1;
      }
    }
  }
}
