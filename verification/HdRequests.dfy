/** The hard disk's request queue (kernel/hd.c) as a sequence of jobs: what submissions and interrupts do to it. */
module HdRequests {
  const MAX_ERRORS := 5

  datatype Job = Job(hd: nat, sector: nat, head: nat, cyl: nat, write: bool, bh: nat, nsector: int, errors: nat)

  /** What the next interrupt calls. */
  datatype Handler = Nothing | OnRead | OnWrite | OnReset

  /** The jobs, the first of which is at the controller; which buffers are locked, up to date and dirty; and, counted
      over the whole history, for which buffers a request was submitted and for which one was done, or failed. */
  datatype Disk = Disk(jobs: seq<Job>, doHd: Handler, locked: set<nat>, uptodate: set<nat>, dirt: set<nat>,
                       submitted: multiset<nat>, done: multiset<nat>, failed: multiset<nat>)

  // ---------- Where a new job goes ----------

  /** IN_ORDER: no coordinate of `s` is beyond that of `r`, and its sector is before. (This is not the order of the
      cylinders, then heads, then sectors.) */
  predicate InOrder(s: Job, r: Job) {
    s.hd <= r.hd && s.cyl <= r.cyl && s.head <= r.head && s.sector < r.sector
  }

  /** It is a strict order, in which nothing is behind what is further in drive, cylinder or head, and within one track the
      sectors decide. */
  lemma InOrderIs(s: Job, r: Job, q: Job)
    ensures !(InOrder(s, r) && InOrder(r, s)) && (InOrder(s, r) && InOrder(r, q) ==> InOrder(s, q))
    ensures s.hd > r.hd || s.cyl > r.cyl || s.head > r.head || s.sector >= r.sector ==> !InOrder(s, r)
    ensures s.hd == r.hd && s.cyl == r.cyl && s.head == r.head ==> (InOrder(s, r) <==> s.sector < r.sector)
    ensures s.sector < r.sector && !InOrder(s, r) ==> s.hd > r.hd || s.cyl > r.cyl || s.head > r.head
  {
  }

  /** The place between jobs `k - 1` and `k` suits the new job. */
  predicate Suits(jobs: seq<Job>, k: nat, job: Job)
    requires 0 < k < |jobs|
  {
    (InOrder(jobs[k - 1], job) || !InOrder(jobs[k - 1], jobs[k])) && InOrder(job, jobs[k])
  }

  /** The first suitable place after the first two jobs, or the end. */
  predicate Place(jobs: seq<Job>, job: Job, k: nat) {
    && k <= |jobs| && (|jobs| < 2 ==> k == |jobs|) && (|jobs| >= 2 ==> k >= 2)
    && (forall j | 2 <= j < k :: !Suits(jobs, j, job))
    && (k < |jobs| ==> 2 <= k && Suits(jobs, k, job))
  }

  function Insert(jobs: seq<Job>, job: Job, k: nat): seq<Job>
    requires k <= |jobs|
  {
    jobs[..k] + [job] + jobs[k..]
  }

  /** From the second job on, each is in order with the one before it. (The first is at the controller.) */
  predicate Sorted(jobs: seq<Job>) {
    forall i | 2 <= i < |jobs| :: InOrder(jobs[i - 1], jobs[i])
  }

  /** The new job is in order with its neighbours at place `k`. */
  predicate Fits(jobs: seq<Job>, k: nat, job: Job)
    requires 0 < k <= |jobs|
  {
    InOrder(jobs[k - 1], job) && (k < |jobs| ==> InOrder(job, jobs[k]))
  }

  /** A sorted queue stays sorted if and only if there is a place where the new job is in order with its neighbours. */
  lemma SortedIff(jobs: seq<Job>, job: Job, k: nat)
    requires |jobs| >= 2 && Sorted(jobs) && Place(jobs, job, k)
    ensures Sorted(Insert(jobs, job, k)) <==> exists j | 2 <= j <= |jobs| :: Fits(jobs, j, job)
  {
    var l := Insert(jobs, job, k);
    forall i | 2 <= i < |l|
      ensures InOrder(l[i - 1], l[i]) <==>
              (i < k || i > k + 1 || (if i == k then InOrder(jobs[k - 1], job) else InOrder(job, jobs[k])))
    {
    }
    if Sorted(l) {
      assert InOrder(l[k - 1], l[k]) && (k < |jobs| ==> InOrder(l[k], l[k + 1]));
      assert Fits(jobs, k, job);
    }
    if j :| 2 <= j <= |jobs| && Fits(jobs, j, job) {
      if j < |jobs| { assert Suits(jobs, j, job); }
      if k < |jobs| { assert InOrder(jobs[k - 1], jobs[k]); }
    }
  }

  /** There need not be one: IN_ORDER is no linear order. Behind a job at cylinder 3, sector 5, one at cylinder 9, sector 2
      is out of order on either side. */
  lemma Unsorted(a: Job, b: Job, job: Job)
    requires b.hd == job.hd && b.head == job.head && b.cyl == 3 && b.sector == 5 && job.cyl == 9 && job.sector == 2
    ensures !InOrder(b, job) && !InOrder(job, b)
    ensures Sorted([a, b]) && Place([a, b], job, 2) && !Sorted(Insert([a, b], job, 2))
  {
    var l := Insert([a, b], job, 2);
    assert l[1] == b && l[2] == job;
  }

  // ---------- Submissions and interrupts ----------

  /** do_request: hand the first job to the controller. A write whose data request never comes resets the controller. */
  function Issue(d: Disk, drq: bool): Disk {
    if d.jobs == [] then d.(doHd := Nothing)
    else if !d.jobs[0].write then d.(doHd := OnRead)
    else if drq then d.(doHd := OnWrite)
    else d.(doHd := OnReset)
  }

  /** rw_abs_hd with a free request slot, and add_request. */
  ghost predicate Submitted(d: Disk, job: Job, drq: bool, e: Disk) {
    exists k: nat :: Place(d.jobs, job, k) && e == Entered(d, job, k, drq)
  }

  function Entered(d: Disk, job: Job, k: nat, drq: bool): Disk
    requires k <= |d.jobs|
  {
    var e := d.(jobs := Insert(d.jobs, job, k), locked := d.locked + {job.bh}, submitted := d.submitted + multiset{job.bh});
    if d.doHd.Nothing? then Issue(e, drq) else e
  }

  /** The first job is done: its buffer is unlocked. */
  function Finish(d: Disk, well: bool): Disk
    requires d.jobs != []
  {
    var b := d.jobs[0].bh;
    var e := d.(jobs := d.jobs[1..], locked := d.locked - {b});
    if well then e.(uptodate := e.uptodate + {b}, dirt := e.dirt - {b}, done := e.done + multiset{b})
    else e.(uptodate := e.uptodate - {b}, failed := e.failed + multiset{b})
  }

  /** bad_rw_intr */
  function Bad(d: Disk): Disk
    requires d.jobs != []
  {
    var j := d.jobs[0];
    var e := if j.errors >= MAX_ERRORS then Finish(d, false) else d.(jobs := d.jobs[0 := j.(errors := j.errors + 1)]);
    e.(doHd := OnReset)
  }

  /** An interrupt. `good` is the controller's result. When no handler is set the kernel panics. */
  function Interrupt(d: Disk, good: bool, drq: bool): Disk
    requires !d.doHd.Nothing? && (!d.doHd.OnReset? ==> d.jobs != [])
  {
    if d.doHd.OnReset? then Issue(d, drq)
    else
      var j := d.jobs[0];
      if !good then Bad(d)
      else if d.doHd.OnRead? then
        if j.nsector == 2 then d.(jobs := d.jobs[0 := j.(nsector := 1)]) else Issue(Finish(d, true), drq)
      else
        if j.nsector - 1 != 0 then d.(jobs := d.jobs[0 := j.(nsector := j.nsector - 1)])
        else Issue(Finish(d, true), drq)
  }

  // ---------- The invariant ----------

  predicate Fresh(j: Job) { j.nsector == 2 && j.errors == 0 }

  predicate Inv(d: Disk) { Shape(d) && Counted(d) }

  /** The handler fits the first job; the others are untouched. */
  predicate Shape(d: Disk) {
    && (d.doHd.Nothing? ==> d.jobs == [])
    && (d.doHd.OnRead? ==> d.jobs != [] && !d.jobs[0].write)
    && (d.doHd.OnWrite? ==> d.jobs != [] && d.jobs[0].write)
    && JobsOk(d.jobs)
  }

  predicate JobsOk(jobs: seq<Job>) {
    && (jobs != [] ==> 1 <= jobs[0].nsector <= 2 && jobs[0].errors <= MAX_ERRORS)
    && (forall i | 1 <= i < |jobs| :: Fresh(jobs[i]))
  }

  /** Every submission has been finished once, or waits in the queue. */
  predicate Counted(d: Disk) {
    d.submitted == d.done + d.failed + Waiting(d.jobs)
  }

  function Waiting(jobs: seq<Job>): multiset<nat> {
    if jobs == [] then multiset{} else multiset{jobs[0].bh} + Waiting(jobs[1..])
  }

  lemma {:induction false} WaitingInsert(jobs: seq<Job>, job: Job, k: nat)
    requires k <= |jobs|
    ensures Waiting(Insert(jobs, job, k)) == Waiting(jobs) + multiset{job.bh}
    decreases k
  {
    if k == 0 {
      assert Insert(jobs, job, 0)[1..] == jobs;
    } else {
      WaitingInsert(jobs[1..], job, k - 1);
      assert Insert(jobs, job, k)[1..] == Insert(jobs[1..], job, k - 1);
    }
  }

  /** A submission keeps the order of the jobs in the queue, leaves the first two where they are, and is counted. */
  lemma SubmitKeeps(d: Disk, job: Job, drq: bool, e: Disk)
    requires Inv(d) && Fresh(job) && Submitted(d, job, drq, e)
    ensures Inv(e) && e.submitted == d.submitted + multiset{job.bh} && e.done == d.done && e.failed == d.failed
    ensures forall i | 0 <= i < 2 && i < |d.jobs| :: i < |e.jobs| && e.jobs[i] == d.jobs[i]
    ensures exists k: nat | k < |e.jobs| :: e.jobs[k] == job && e.jobs[..k] + e.jobs[k + 1..] == d.jobs
  {
    var k: nat :| Place(d.jobs, job, k) && e == Entered(d, job, k, drq);
    WaitingInsert(d.jobs, job, k);
    hide Waiting, Suits, Shape;
    assert e.jobs == Insert(d.jobs, job, k);
    InsertKeeps(d.jobs, job, k);
    EnteredShape(d, job, k, drq);
  }

  lemma InsertKeeps(jobs: seq<Job>, job: Job, k: nat)
    requires Place(jobs, job, k)
    ensures var l := Insert(jobs, job, k);
            && l[k] == job && l[..k] + l[k + 1..] == jobs && forall i | 0 <= i < 2 && i < |jobs| :: l[i] == jobs[i]
  {
    hide Suits;
    var l := Insert(jobs, job, k);
    assert l[..k] + l[k + 1..] == jobs;
  }

  lemma EnteredShape(d: Disk, job: Job, k: nat, drq: bool)
    requires Shape(d) && Fresh(job) && Place(d.jobs, job, k)
    ensures Shape(Entered(d, job, k, drq))
  {
    hide Suits;
    var jobs := Insert(d.jobs, job, k);
    assert d.jobs != [] ==> jobs[0] == d.jobs[0];
    forall i | 1 <= i < |jobs| ensures Fresh(jobs[i]) {
      assert jobs[i] == if i < k then d.jobs[i] else if i == k then job else d.jobs[i - 1];
    }
  }

  lemma WaitingFirst(jobs: seq<Job>, j: Job)
    requires jobs != [] && j.bh == jobs[0].bh
    ensures Waiting(jobs[0 := j]) == Waiting(jobs) == multiset{jobs[0].bh} + Waiting(jobs[1..])
  {
    assert jobs[0 := j][1..] == jobs[1..];
  }

  lemma FinishKeeps(d: Disk, well: bool)
    requires d.jobs != [] && JobsOk(d.jobs) && Counted(d)
    ensures JobsOk(Finish(d, well).jobs) && Counted(Finish(d, well)) && Finish(d, well).submitted == d.submitted
  {
    assert Waiting(d.jobs) == multiset{d.jobs[0].bh} + Waiting(d.jobs[1..]);
    assert d.jobs[1..] != [] ==> Fresh(d.jobs[1]);
  }

  lemma FirstKeeps(d: Disk, j: Job)
    requires d.jobs != [] && JobsOk(d.jobs) && Counted(d) && j.bh == d.jobs[0].bh
    requires 1 <= j.nsector <= 2 && j.errors <= MAX_ERRORS
    ensures JobsOk(d.jobs[0 := j]) && Counted(d.(jobs := d.jobs[0 := j])) && d.jobs[0 := j][1..] == d.jobs[1..]
  {
    WaitingFirst(d.jobs, j);
  }

  lemma IssueKeeps(d: Disk, drq: bool)
    requires JobsOk(d.jobs) && Counted(d)
    ensures var e := Issue(d, drq); Inv(e) && e.submitted == d.submitted && e.jobs == d.jobs
  {
    hide Waiting;
  }

  lemma BadKeeps(d: Disk)
    requires d.jobs != [] && JobsOk(d.jobs) && Counted(d)
    ensures var e := Bad(d);
            && Inv(e) && e.submitted == d.submitted
            && (e.jobs == d.jobs[1..] || (e.jobs != [] && e.jobs[1..] == d.jobs[1..]))
  {
    var j := d.jobs[0];
    if j.errors >= MAX_ERRORS { FinishKeeps(d, false); } else { FirstKeeps(d, j.(errors := j.errors + 1)); }
    hide Waiting;
  }

  /** An interrupt always finds its handler and its job; it never touches the jobs behind the first. */
  lemma InterruptKeeps(d: Disk, good: bool, drq: bool)
    requires Inv(d) && !d.doHd.Nothing?
    ensures var e := Interrupt(d, good, drq);
            && Inv(e) && e.submitted == d.submitted
            && (d.jobs != [] ==> e.jobs == d.jobs[1..] || (e.jobs != [] && e.jobs[1..] == d.jobs[1..]))
  {
    if d.doHd.OnReset? {
      IssueKeeps(d, drq);
    } else {
      JobsFirst(d);
      hide Counted, JobsOk;
      if !good {
        BadKeeps(d);
      } else if d.jobs[0].nsector == 2 {
        FirstKeeps(d, d.jobs[0].(nsector := 1));
      } else {
        FinishKeeps(d, true);
        IssueKeeps(Finish(d, true), drq);
      }
    }
  }

  lemma JobsFirst(d: Disk)
    requires Inv(d) && d.jobs != []
    ensures 1 <= d.jobs[0].nsector <= 2 && d.jobs[0].errors <= MAX_ERRORS
  {
  }

  // ---------- Draining ----------

  /** What is left to do, in interrupts: each error costs two, and each sector one. */
  function Work(d: Disk): int {
    (if d.jobs == [] then 0
     else 14 * (|d.jobs| - 1) + 2 * (MAX_ERRORS + 1 - d.jobs[0].errors) + d.jobs[0].nsector)
    + if d.doHd.OnReset? then 1 else 0
  }

  /** A write is to be issued again after a reset. */
  predicate Rewriting(d: Disk) { d.doHd.OnReset? && d.jobs != [] && d.jobs[0].write }

  /** Every interrupt does some of it, whatever errors there are, if and only if it does not issue a write again without
      being granted the data request. */
  lemma InterruptWorks(d: Disk, good: bool, drq: bool)
    requires Inv(d) && !d.doHd.Nothing?
    ensures 0 <= Work(Interrupt(d, good, drq)) <= Work(d)
    ensures Work(Interrupt(d, good, drq)) < Work(d) <==> drq || !Rewriting(d)
  {
    InterruptKeeps(d, good, drq);
  }

  lemma WorkBound(d: Disk)
    requires Inv(d)
    ensures 0 <= Work(d) <= 14 * |d.jobs| + 1
    ensures Work(d) == 0 ==> d.jobs == [] && d.doHd.Nothing?
  {
  }

  /** The controller's result, and whether the data request comes when a write is issued. */
  datatype Irq = Irq(good: bool, drq: bool)

  /** The queue after some interrupts. */
  function Interrupts(d: Disk, irqs: seq<Irq>): (e: Disk)
    requires Inv(d)
    ensures Inv(e)
    decreases |irqs|
  {
    if irqs == [] || d.doHd.Nothing? then d else
    InterruptKeeps(d, irqs[0].good, irqs[0].drq);
    Interrupts(Interrupt(d, irqs[0].good, irqs[0].drq), irqs[1..])
  }

  /** With no more submissions and the data request granted, 14 interrupts for each job and one more leave the queue empty,
      and every submission ever made has been finished exactly once. */
  lemma {:induction false} Drains(d: Disk, irqs: seq<Irq>)
    requires Inv(d) && |irqs| >= Work(d) && forall i | 0 <= i < |irqs| :: irqs[i].drq
    ensures var e := Interrupts(d, irqs);
            e.jobs == [] && e.doHd.Nothing? && e.submitted == d.submitted == e.done + e.failed
    decreases |irqs|
  {
    WorkBound(d);
    if irqs != [] && !d.doHd.Nothing? {
      InterruptKeeps(d, irqs[0].good, irqs[0].drq);
      InterruptWorks(d, irqs[0].good, irqs[0].drq);
      Drains(Interrupt(d, irqs[0].good, irqs[0].drq), irqs[1..]);
    }
  }

  /** A write whose data request never comes is issued again for ever: no error is counted, and nothing behind it is served. */
  lemma {:induction false} NeverGranted(d: Disk, irqs: seq<Irq>)
    requires Inv(d) && Rewriting(d) && forall i | 0 <= i < |irqs| :: !irqs[i].drq
    ensures Interrupts(d, irqs) == d
    decreases |irqs|
  {
    if irqs != [] { NeverGranted(d, irqs[1..]); }
  }

  /** However the errors fall, the queue is empty after enough interrupts, or it has come to a write that is issued again
      without being granted its data request. */
  lemma {:induction false} DrainsOrWaits(d: Disk, irqs: seq<Irq>)
    requires Inv(d) && |irqs| >= Work(d)
    ensures Interrupts(d, irqs).doHd.Nothing? ||
            exists n: nat :: WaitsAt(d, irqs, n)
    decreases |irqs|
  {
    HasJob(d);
    hide Interrupt, Work, Inv, Rewriting, WaitsAt;
    WorkBound(d);
    if irqs != [] && !d.doHd.Nothing? {
      var irq := irqs[0];
      InterruptKeeps(d, irq.good, irq.drq);
      InterruptWorks(d, irq.good, irq.drq);
      if irq.drq || !Rewriting(d) {
        var e := Interrupt(d, irq.good, irq.drq);
        DrainsOrWaits(e, irqs[1..]);
        if n: nat :| WaitsAt(e, irqs[1..], n) { WaitsLater(d, irqs, n); }
      } else {
        WaitsNow(d, irqs);
      }
    }
  }

  /** Interrupt `n` finds a write that is issued again, and its data request is not granted. */
  ghost predicate WaitsAt(d: Disk, irqs: seq<Irq>, n: nat) {
    Inv(d) && n < |irqs| && !irqs[n].drq && Rewriting(Interrupts(d, irqs[..n]))
  }

  lemma WaitsNow(d: Disk, irqs: seq<Irq>)
    requires Inv(d) && irqs != [] && !irqs[0].drq && Rewriting(d)
    ensures WaitsAt(d, irqs, 0)
  {
    hide Interrupt, Rewriting;
  }

  lemma WaitsLater(d: Disk, irqs: seq<Irq>, n: nat)
    requires irqs != [] && !d.doHd.Nothing? && Inv(d) && WaitsAt(Interrupt(d, irqs[0].good, irqs[0].drq), irqs[1..], n)
    ensures WaitsAt(d, irqs, n + 1)
  {
    hide Interrupt, Rewriting, Inv;
    assert irqs[..n + 1][1..] == irqs[1..][..n] && irqs[..n + 1][0] == irqs[0];
  }

  // ---------- Locks ----------

  /** A buffer is locked exactly while a job for it is in the queue, and no two jobs are for the same buffer. */
  ghost predicate LocksOk(d: Disk) { LocksMatch(d.locked, Waiting(d.jobs)) }

  ghost predicate LocksMatch(locked: set<nat>, waiting: multiset<nat>) {
    && (forall b :: b in locked <==> b in waiting)
    && (forall b :: waiting[b] <= 1)
  }

  /** Submitting a buffer that is not locked keeps this, and nothing else does. */
  lemma SubmitLocks(d: Disk, job: Job, drq: bool, e: Disk)
    requires Inv(d) && LocksOk(d) && Submitted(d, job, drq, e)
    ensures LocksOk(e) <==> job.bh !in d.locked
  {
    var k: nat :| Place(d.jobs, job, k) && e == Entered(d, job, k, drq);
    WaitingInsert(d.jobs, job, k);
    if job.bh in d.locked {
      assert Waiting(e.jobs)[job.bh] > 1;
    }
  }

  lemma InterruptLocks(d: Disk, good: bool, drq: bool)
    requires Inv(d) && LocksOk(d) && !d.doHd.Nothing?
    ensures LocksOk(Interrupt(d, good, drq))
  {
    HasJob(d);
    if !d.doHd.OnReset? {
      hide Waiting, LocksMatch, Inv;
      if !good {
        BadLocks(d);
      } else if d.jobs[0].nsector == 2 {
        WaitingFirst(d.jobs, d.jobs[0].(nsector := 1));
      } else {
        JobsFirst(d);
        FinishLocks(d, true);
      }
    }
  }

  lemma HasJob(d: Disk)
    requires Inv(d)
    ensures !d.doHd.Nothing? && !d.doHd.OnReset? ==> d.jobs != []
  {
  }

  lemma BadLocks(d: Disk)
    requires LocksOk(d) && d.jobs != []
    ensures LocksOk(Bad(d))
  {
    hide Waiting, LocksMatch;
    if d.jobs[0].errors >= MAX_ERRORS {
      FinishLocks(d, false);
    } else {
      WaitingFirst(d.jobs, d.jobs[0].(errors := d.jobs[0].errors + 1));
    }
  }

  lemma FinishLocks(d: Disk, well: bool)
    requires LocksOk(d) && d.jobs != []
    ensures LocksOk(Finish(d, well))
  {
    var b := d.jobs[0].bh;
    assert Waiting(d.jobs) == multiset{b} + Waiting(d.jobs[1..]);
    hide Waiting;
    assert Waiting(d.jobs)[b] <= 1;
    forall c ensures c in d.locked - {b} <==> c in Waiting(d.jobs[1..]) {
      assert Waiting(d.jobs)[c] == (if c == b then 1 else 0) + Waiting(d.jobs[1..])[c];
    }
    forall c ensures Waiting(d.jobs[1..])[c] <= 1 {
      assert Waiting(d.jobs)[c] <= 1;
    }
  }

  // ---------- Runs ----------

  datatype Event = Submit(job: Job, drq: bool) | Intr(good: bool, drq: bool)

  ghost predicate Happens(d: Disk, ev: Event, e: Disk) {
    match ev
    case Submit(job, drq) => Fresh(job) && Submitted(d, job, drq, e)
    case Intr(good, drq) => Inv(d) && !d.doHd.Nothing? && e == Interrupt(d, good, drq)
  }

  ghost predicate Runs(trace: seq<Disk>, events: seq<Event>) {
    |trace| == |events| + 1 && forall i | 0 <= i < |events| :: Happens(trace[i], events[i], trace[i + 1])
  }

  function SubmittedIn(events: seq<Event>): multiset<nat> {
    if events == [] then multiset{}
    else SubmittedIn(events[..|events| - 1]) +
         (var ev := events[|events| - 1]; if ev.Submit? then multiset{ev.job.bh} else multiset{})
  }

  /** Over every run, each submission is waiting in the queue or has unlocked its buffer once, well or badly. */
  lemma {:induction false} RunCounts(trace: seq<Disk>, events: seq<Event>)
    requires Runs(trace, events) && Inv(trace[0]) && trace[0].submitted == multiset{}
    ensures var d := trace[|events|];
            Inv(d) && SubmittedIn(events) == d.submitted == d.done + d.failed + Waiting(d.jobs)
    decreases |events|
  {
    var n := |events|;
    if n > 0 {
      var d, ev, e := trace[n - 1], events[n - 1], trace[n];
      RunCounts(trace[..n], events[..n - 1]);
      assert Happens(d, ev, e);
      hide Interrupt, Waiting, Submitted;
      match ev {
        case Submit(job, drq) => SubmitKeeps(d, job, drq, e);
        case Intr(good, drq) => InterruptKeeps(d, good, drq);
      }
    }
  }

  // ---------- What becomes of the buffers ----------

  /** The first job has just left the queue, and has not failed: its buffer holds what is on the disk. */
  ghost predicate EndsWell(d: Disk, e: Disk)
    requires d.jobs != []
  {
    var b := d.jobs[0].bh;
    && e.jobs == d.jobs[1..] && e.done == d.done + multiset{b} && e.failed == d.failed
    && b in e.uptodate && b !in e.dirt && b !in e.locked && OthersSame(d, e, b)
  }

  /** It has been given up: the buffer is not up to date, and as dirty as before. */
  ghost predicate EndsBadly(d: Disk, e: Disk)
    requires d.jobs != []
  {
    var b := d.jobs[0].bh;
    && e.jobs == d.jobs[1..] && e.done == d.done && e.failed == d.failed + multiset{b}
    && b !in e.uptodate && (b in e.dirt <==> b in d.dirt) && b !in e.locked && OthersSame(d, e, b)
  }

  ghost predicate OthersSame(d: Disk, e: Disk, b: nat) {
    && (forall c | c != b :: c in e.uptodate <==> c in d.uptodate)
    && (forall c | c != b :: c in e.dirt <==> c in d.dirt)
    && (forall c | c != b :: c in e.locked <==> c in d.locked)
  }

  /** No job has left. */
  predicate NoneEnds(d: Disk, e: Disk) {
    && |e.jobs| == |d.jobs| && e.done == d.done && e.failed == d.failed
    && e.uptodate == d.uptodate && e.dirt == d.dirt && e.locked == d.locked
  }

  /** What the controller does next for the first job, if there is one. */
  predicate Starts(e: Disk, drq: bool) {
    e.doHd == if e.jobs == [] then Nothing else if !e.jobs[0].write then OnRead else if drq then OnWrite else OnReset
  }

  /** A job ends well when its last sector went well, and badly at its sixth error. A sector that went well is counted, and an
      error too; after an error the controller is reset, and the job is begun again at the next interrupt. */
  lemma InterruptIs(d: Disk, good: bool, drq: bool)
    requires Inv(d) && !d.doHd.Nothing?
    ensures var e := Interrupt(d, good, drq);
            if d.doHd.OnReset? then NoneEnds(d, e) && e.jobs == d.jobs && Starts(e, drq)
            else
              var j := d.jobs[0];
              if good && j.nsector == 1 then EndsWell(d, e) && Starts(e, drq)
              else if good then
                NoneEnds(d, e) && e.doHd == d.doHd && e.jobs[1..] == d.jobs[1..] && e.jobs[0] == j.(nsector := j.nsector - 1)
              else if j.errors >= 5 then EndsBadly(d, e) && e.doHd.OnReset?
              else
                NoneEnds(d, e) && e.doHd.OnReset? && e.jobs[1..] == d.jobs[1..] && e.jobs[0] == j.(errors := j.errors + 1)
  {
    if d.doHd.OnReset? {
      IssueIs(d, drq);
    } else {
      JobsFirst(d);
      BadIs(d);
      WellIs(d, drq);
    }
    hide Inv, Finish, Bad, Issue, EndsWell, EndsBadly, Starts, Waiting;
  }

  lemma IssueIs(d: Disk, drq: bool)
    ensures var e := Issue(d, drq); NoneEnds(d, e) && e.jobs == d.jobs && Starts(e, drq)
  {
  }

  lemma WellIs(d: Disk, drq: bool)
    requires d.jobs != []
    ensures var e := Issue(Finish(d, true), drq); EndsWell(d, e) && Starts(e, drq)
  {
  }

  lemma BadIs(d: Disk)
    requires d.jobs != []
    ensures var e, j := Bad(d), d.jobs[0];
            && e.doHd.OnReset?
            && if j.errors >= 5 then EndsBadly(d, e)
               else NoneEnds(d, e) && e.jobs[1..] == d.jobs[1..] && e.jobs[0] == j.(errors := j.errors + 1)
  {
  }

  /** Submissions lock the buffer, and change no other flag; nothing ends. */
  lemma SubmitFlags(d: Disk, job: Job, drq: bool, e: Disk)
    requires Submitted(d, job, drq, e)
    ensures e.uptodate == d.uptodate && e.dirt == d.dirt && e.locked == d.locked + {job.bh}
    ensures e.done == d.done && e.failed == d.failed
    ensures if d.doHd.Nothing? then Starts(e, drq) else e.doHd == d.doHd
  {
    hide Place;
  }

  /** The flags of buffer `b` are the same. */
  predicate FlagsSame(d: Disk, e: Disk, b: nat) {
    (b in e.uptodate <==> b in d.uptodate) && (b in e.dirt <==> b in d.dirt)
  }

  /** How often a job for `b` has ended. */
  function Ends(d: Disk, b: nat): (nat, nat) { (d.done[b], d.failed[b]) }

  lemma StepFlags(d: Disk, ev: Event, e: Disk, b: nat)
    requires Inv(d) && Happens(d, ev, e)
    ensures Inv(e) && e.done[b] >= d.done[b] && e.failed[b] >= d.failed[b]
    ensures Ends(e, b) == Ends(d, b) ==> FlagsSame(d, e, b)
    ensures e.done[b] > d.done[b] ==> b in e.uptodate && b !in e.dirt
    ensures e.failed[b] > d.failed[b] ==> b !in e.uptodate && (b in e.dirt <==> b in d.dirt) && e.done[b] == d.done[b]
  {
    hide Interrupt, Waiting, Submitted, Shape, Counted;
    match ev {
      case Submit(job, drq) =>
        SubmitKeeps(d, job, drq, e);
        SubmitFlags(d, job, drq, e);
      case Intr(good, drq) =>
        InterruptKeeps(d, good, drq);
        InterruptIs(d, good, drq);
    }
  }

  /** Over a run: a buffer for which no job ends is as up to date, and as dirty, as it was. */
  lemma {:induction false} FlagsStay(trace: seq<Disk>, events: seq<Event>, b: nat)
    requires Runs(trace, events) && Inv(trace[0])
    ensures var d, e := trace[0], trace[|events|];
            && Inv(e) && e.done[b] >= d.done[b] && e.failed[b] >= d.failed[b]
            && (Ends(e, b) == Ends(d, b) ==> FlagsSame(d, e, b))
    decreases |events|
  {
    hide Happens, Inv;
    if events != [] {
      assert Happens(trace[0], events[0], trace[1]);
      assert Runs(trace[1..], events[1..]);
      hide Runs;
      StepFlags(trace[0], events[0], trace[1], b);
      FlagsStay(trace[1..], events[1..], b);
    }
  }

  /** Over a run: what the last job that ended for a buffer came to is what its flags say. */
  lemma LastEnd(trace: seq<Disk>, events: seq<Event>, b: nat, i: nat)
    requires Runs(trace, events) && Inv(trace[0]) && i < |events|
    requires Ends(trace[i + 1], b) != Ends(trace[i], b) && Ends(trace[|events|], b) == Ends(trace[i + 1], b)
    ensures var d, e, f := trace[i], trace[i + 1], trace[|events|];
            if e.done[b] > d.done[b] then b in f.uptodate && b !in f.dirt else b !in f.uptodate && (b in f.dirt <==> b in d.dirt)
  {
    hide Happens, Inv;
    RunInv(trace, events, i);
    assert Happens(trace[i], events[i], trace[i + 1]);
    assert Runs(trace[i + 1..], events[i + 1..]);
    hide Runs;
    StepFlags(trace[i], events[i], trace[i + 1], b);
    FlagsStay(trace[i + 1..], events[i + 1..], b);
  }

  lemma RunInv(trace: seq<Disk>, events: seq<Event>, i: nat)
    requires Runs(trace, events) && Inv(trace[0]) && i <= |events|
    ensures Inv(trace[i])
  {
    hide Happens, Inv;
    assert Runs(trace[..i + 1], events[..i]);
    hide Runs;
    FlagsStay(trace[..i + 1], events[..i], 0);
  }
}
