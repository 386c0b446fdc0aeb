/** kernel/hd.c: the request slots, linked into a queue. Submissions are atomic with respect to interrupts, so the flag
    `sorting` is never seen set. */
module HdQueue {
  import opened Collections
  import opened HdRequests

  const NR_REQUEST := 32
  const NULL := -1

  /** A slot is free if `hd` is negative. */
  datatype Request = Request(hd: int, nsector: int, sector: nat, head: nat, cyl: nat, write: bool, errors: nat, bh: nat,
                             next: int)

  function JobOf(r: Request): Job {
    Job(if r.hd < 0 then 0 else r.hd, r.sector, r.head, r.cyl, r.write, r.bh, r.nsector, r.errors)
  }

  function Jobs(request: seq<Request>, list: seq<nat>): (jobs: seq<Job>)
    requires forall i | 0 <= i < |list| :: list[i] < |request|
    ensures |jobs| == |list|
  {
    seq(|list|, i requires 0 <= i < |list| => JobOf(request[list[i]]))
  }

  function At(list: seq<nat>, i: int): int {
    if 0 <= i < |list| then list[i] else NULL
  }

  predicate LinkAt(request: seq<Request>, list: seq<nat>, i: nat)
    requires i < |list|
  {
    list[i] < |request| && request[list[i]].next == At(list, i + 1)
  }

  /** `list` is the queue from `first` on, and holds exactly the slots in use. */
  predicate Linked(request: seq<Request>, first: int, list: seq<nat>) {
    && first == At(list, 0) && Distinct(list)
    && (forall i | 0 <= i < |list| :: LinkAt(request, list, i))
    && (forall s: nat | s < |request| :: s in list <==> request[s].hd >= 0)
  }

  function Into(list: seq<nat>, slot: nat, k: nat): seq<nat>
    requires k <= |list|
  {
    list[..k] + [slot] + list[k..]
  }

  lemma IntoElems(list: seq<nat>, slot: nat, k: nat)
    requires k <= |list|
    ensures forall s :: s in Into(list, slot, k) <==> s in list || s == slot
    ensures Distinct(list) && slot !in list ==> Distinct(Into(list, slot, k))
  {
    var l := Into(list, slot, k);
    forall s ensures s in l <==> s in list || s == slot {
      if s in list {
        var i :| 0 <= i < |list| && list[i] == s;
        assert l[if i < k then i else i + 1] == s;
      }
      assert l[k] == slot;
    }
  }

  /** A new request is linked in behind `list[k - 1]`. */
  lemma LinkIn(request: seq<Request>, first: int, list: seq<nat>, slot: nat, r: Request, k: nat)
    requires Linked(request, first, list) && slot < |request| && request[slot].hd < 0 && r.hd >= 0
    requires 0 < k <= |list| && r.next == At(list, k)
    ensures list[k - 1] < |request| && list[k - 1] != slot
    ensures var p := list[k - 1]; var q := request[slot := r][p := request[p].(next := slot)];
            Linked(q, first, Into(list, slot, k)) && forall i | 0 <= i < |list| :: list[i] < |request| && list[i] != slot
  {
    var p := list[k - 1];
    assert LinkAt(request, list, k - 1) && p in list;
    var q := request[slot := r][p := request[p].(next := slot)];
    var l := Into(list, slot, k);
    IntoElems(list, slot, k);
    forall i | 0 <= i < |list| ensures list[i] < |request| && list[i] != slot {
      assert LinkAt(request, list, i) && list[i] in list;
    }
    forall i | 0 <= i < |l| ensures LinkAt(q, l, i) {
      if i < k {
        assert l[i] == list[i] && LinkAt(request, list, i);
      } else if i > k {
        assert l[i] == list[i - 1] && LinkAt(request, list, i - 1);
      }
    }
  }

  lemma JobsIn(request: seq<Request>, list: seq<nat>, slot: nat, r: Request, k: nat, q: seq<Request>)
    requires slot < |request| == |q| && k <= |list| && slot !in list && JobOf(q[slot]) == JobOf(r)
    requires forall s: nat | s < |request| && s != slot :: JobOf(q[s]) == JobOf(request[s])
    requires forall i | 0 <= i < |list| :: list[i] < |request|
    ensures forall i | 0 <= i < |list| + 1 :: Into(list, slot, k)[i] < |q|
    ensures Jobs(q, Into(list, slot, k)) == Insert(Jobs(request, list), JobOf(r), k)
  {
    var l := Into(list, slot, k);
    forall i | 0 <= i < |l|
      ensures l[i] < |q| && JobOf(q[l[i]]) == Insert(Jobs(request, list), JobOf(r), k)[i]
    {
      if i < k {
        assert l[i] == list[i] && list[i] in list;
      } else if i > k {
        assert l[i] == list[i - 1] && list[i - 1] in list;
      }
    }
  }

  /** The first request leaves the queue. */
  lemma LinkOut(request: seq<Request>, first: int, list: seq<nat>)
    requires Linked(request, first, list) && list != []
    ensures list[0] < |request| && forall i | 0 <= i < |list[1..]| :: list[1..][i] < |request|
    ensures forall i | 0 <= i < |list| :: list[i] < |request|
    ensures var q := request[list[0] := request[list[0]].(hd := NULL)];
            Linked(q, request[list[0]].next, list[1..]) && Jobs(q, list[1..]) == Jobs(request, list)[1..]
  {
    var s, l := list[0], list[1..];
    assert LinkAt(request, list, 0);
    var q := request[s := request[s].(hd := NULL)];
    forall i | 0 <= i < |l| ensures LinkAt(q, l, i) {
      assert l[i] == list[i + 1] && LinkAt(request, list, i + 1);
    }
    forall t: nat | t < |q| ensures t in l <==> q[t].hd >= 0 {
      assert t in list <==> t == s || t in l;
    }
    forall i | 0 <= i < |list| ensures list[i] < |request| { assert LinkAt(request, list, i); }
  }

  class Disks {
    const request: array<Request>
    var thisRequest: int
    var doHd: Handler
    var locked: set<nat>            // b_lock, b_uptodate and b_dirt of the buffers
    var uptodate: set<nat>
    var dirt: set<nat>

    ghost var list: seq<nat>
    ghost var submitted: multiset<nat>
    ghost var done: multiset<nat>
    ghost var failed: multiset<nat>

    ghost predicate Queued()
      reads this, request
    {
      && request.Length == NR_REQUEST && Linked(request[..], thisRequest, list)
      && forall i | 0 <= i < |list| :: list[i] < NR_REQUEST
    }

    ghost function Abs(): (d: Disk)
      requires Queued()
      reads this, request
      ensures |d.jobs| == |list|
    {
      Disk(Jobs(request[..], list), doHd, locked, uptodate, dirt, submitted, done, failed)
    }

    ghost predicate Valid()
      reads this, request
    {
      Queued() && Inv(Abs())
    }

    /** hd_init */
    constructor ()
      ensures Valid() && fresh(request) && list == [] && submitted == multiset{} && locked == {}
    {
      request := new Request[NR_REQUEST](_ => Request(NULL, 0, 0, 0, 0, false, 0, 0, NULL));
      thisRequest, doHd, locked, uptodate, dirt := NULL, Nothing, {}, {}, {};
      list, submitted, done, failed := [], multiset{}, multiset{}, multiset{};
    }

    // ---------- Submissions ----------

    /** rw_abs_hd, up to the wait. Without a free slot the caller sleeps, with its buffer locked, and tries again. */
    method RwAbsHd(hd: nat, sector: nat, head: nat, cyl: nat, write: bool, bh: nat, drq: bool) returns (queued: bool)
      requires Valid()
      modifies this, request
      ensures Valid() && (queued <==> |old(Abs()).jobs| < NR_REQUEST)
      ensures if queued then Submitted(old(Abs()), Job(hd, sector, head, cyl, write, bh, 2, 0), drq, Abs())
              else Abs() == old(Abs()).(locked := old(locked) + {bh})
    {
      hide Linked, Inv, Place, Insert, Issue;
      ghost var d := Abs();
      locked := locked + {bh};
      var slot := FindSlot();
      SlotsUsed(slot);
      if slot == NULL {
        LocksOnly(d, locked);
        return false;
      }
      var r := Request(hd, 2, sector, head, cyl, write, 0, bh, NULL);
      ghost var k := AddRequest(slot, r);
      submitted := submitted + multiset{bh};
      if doHd == Nothing {
        DoRequest(drq);
      }
      assert Abs() == Entered(d, JobOf(r), k, drq);
      SubmitKeeps(d, JobOf(r), drq, Abs());
      return true;
    }

    lemma LocksOnly(d: Disk, l: set<nat>)
      requires Inv(d)
      ensures Inv(d.(locked := l))
    {
    }

    method FindSlot() returns (slot: int)
      requires Queued()
      ensures slot == NULL ==> forall s: nat | s < NR_REQUEST :: request[s].hd >= 0
      ensures slot != NULL ==> 0 <= slot < NR_REQUEST && request[slot].hd < 0
    {
      slot := 0;
      while slot < NR_REQUEST
        invariant 0 <= slot <= NR_REQUEST && forall s: nat | s < slot :: request[s].hd >= 0
      {
        if request[slot].hd < 0 { return; }
        slot := slot + 1;
      }
      slot := NULL;
    }

    lemma SlotsUsed(slot: int)
      requires Queued()
      requires slot == NULL ==> forall s: nat | s < NR_REQUEST :: request[s].hd >= 0
      requires slot != NULL ==> 0 <= slot < NR_REQUEST && request[slot].hd < 0
      ensures |list| < NR_REQUEST <==> slot != NULL
    {
      forall s | s in list ensures s < NR_REQUEST { }
      CountBelow(list, NR_REQUEST);
      if slot == NULL {
        forall s: nat | s < NR_REQUEST ensures s in list { assert request[..][s].hd >= 0; }
      } else {
        assert request[..][slot].hd < 0;
      }
    }

    /** The slot is filled and linked in: at the front if there is no other, otherwise never before the third place. */
    method AddRequest(slot: nat, r: Request) returns (ghost k: nat)
      requires Queued() && slot < NR_REQUEST && request[slot].hd < 0 && r.hd >= 0 && r.next == NULL
      modifies this`thisRequest, this`list, request
      ensures Queued() && k <= |old(list)| && Place(Jobs(old(request[..]), old(list)), JobOf(r), k)
      ensures Jobs(request[..], list) == Insert(Jobs(old(request[..]), old(list)), JobOf(r), k)
    {
      ghost var q, l := request[..], list;
      if thisRequest == NULL {
        request[slot] := r;
        thisRequest := slot;
        list := [slot];
        assert l == [];
        k := 0;
        return;
      }
      var tmp;
      tmp, k := FindPlace(JobOf(r));
      hide Place, Linked;
      LinkIn(q, thisRequest, l, slot, r.(next := At(l, k)), k);
      request[slot] := r.(next := request[tmp].next);
      request[tmp] := request[tmp].(next := slot);
      JobsIn(q, l, slot, r, k, request[..]);
      list := Into(l, slot, k);
    }

    /** The request to link the new one behind. */
    method FindPlace(job: Job) returns (tmp: nat, ghost k: nat)
      requires Queued() && thisRequest != NULL
      ensures 0 < k <= |list| && tmp == list[k - 1] && tmp < NR_REQUEST && request[tmp].next == At(list, k)
      ensures Place(Jobs(request[..], list), job, k)
    {
      ghost var q, jobs := request[..], Jobs(request[..], list);
      assert list != [];
      assert LinkAt(q, list, 0);
      tmp, k := thisRequest, 1;
      if request[tmp].next == NULL { return; }
      tmp, k := request[tmp].next, 2;
      assert LinkAt(q, list, 1);
      while request[tmp].next != NULL
        invariant 2 <= k <= |list| && tmp == list[k - 1] && LinkAt(q, list, k - 1)
        invariant forall j | 2 <= j < k :: !Suits(jobs, j, job)
        decreases |list| - k
      {
        var next := request[tmp].next;
        assert LinkAt(q, list, k);
        assert jobs[k - 1] == JobOf(request[tmp]) && jobs[k] == JobOf(request[next]);
        if (InOrder(JobOf(request[tmp]), job) || !InOrder(JobOf(request[tmp]), JobOf(request[next])))
           && InOrder(job, JobOf(request[next])) {
          break;
        }
        tmp := next;
        k := k + 1;
      }
    }

    // ---------- The controller ----------

    method DoRequest(drq: bool)
      requires Queued()
      modifies this`doHd
      ensures Abs() == Issue(old(Abs()), drq)
    {
      assert list != [] ==> LinkAt(request[..], list, 0);
      if thisRequest == NULL {
        doHd := Nothing;
      } else if request[thisRequest].write {
        doHd := if drq then OnWrite else OnReset;
      } else {
        doHd := OnRead;
      }
    }

    method FinishFirst(well: bool)
      requires Queued() && list != []
      modifies this, request
      ensures Queued() && Abs() == Finish(old(Abs()), well)
    {
      hide Linked;
      FirstRequest();
      var b := request[thisRequest].bh;
      if well {
        uptodate, dirt := uptodate + {b}, dirt - {b};
        done := done + multiset{b};
      } else {
        uptodate := uptodate - {b};
        failed := failed + multiset{b};
      }
      locked := locked - {b};
      LeaveQueue();
    }

    method LeaveQueue()
      requires Queued() && list != []
      modifies this`thisRequest, this`list, request
      ensures Queued() && |list| == |old(list)| - 1 && Jobs(request[..], list) == Jobs(old(request[..]), old(list))[1..]
    {
      LinkOut(request[..], thisRequest, list);
      FirstRequest();
      hide Linked;
      var next := request[thisRequest].next;
      request[thisRequest] := request[thisRequest].(hd := NULL);
      thisRequest := next;
      list := list[1..];
    }

    lemma FirstRequest()
      requires Queued() && list != []
      ensures 0 <= thisRequest < NR_REQUEST && list[0] == thisRequest
      ensures Abs().jobs[0] == JobOf(request[thisRequest]) && request[thisRequest].hd >= 0
    {
      assert LinkAt(request[..], list, 0) && list[0] in list;
    }

    /** The first request changes, but not its place in the queue. */
    lemma FirstChanged(q: seq<Request>, r: Request)
      requires Queued() && list != [] && |q| == NR_REQUEST && 0 <= thisRequest < NR_REQUEST
      requires q == request[..][thisRequest := r] && r.next == request[thisRequest].next && r.hd >= 0
      ensures Linked(q, thisRequest, list) && Jobs(q, list) == Jobs(request[..], list)[0 := JobOf(r)]
    {
      forall i | 0 <= i < |list| ensures LinkAt(q, list, i) {
        assert LinkAt(request[..], list, i);
      }
      assert LinkAt(request[..], list, 0) && list[0] in list;
    }

    method BadRwIntr()
      requires Queued() && list != []
      modifies this, request
      ensures Queued() && Abs() == Bad(old(Abs()))
    {
      FirstRequest();
      ghost var d := Abs();
      var r := request[thisRequest];
      FirstChanged(request[..][thisRequest := r.(errors := r.errors + 1)], r.(errors := r.errors + 1));
      hide Linked;
      if r.errors >= MAX_ERRORS {
        FinishFirst(false);
      } else {
        request[thisRequest] := r.(errors := r.errors + 1);
      }
      doHd := OnReset;
    }

    /** An interrupt. Without a handler the kernel panics. */
    method OnInterrupt(good: bool, drq: bool)
      requires Valid() && doHd != Nothing
      modifies this, request
      ensures Valid() && Abs() == Interrupt(old(Abs()), good, drq)
    {
      ghost var d := Abs();
      InterruptKeeps(d, good, drq);
      hide Inv;
      match doHd {
        case OnReset => DoRequest(drq);
        case OnRead => ReadIntr(good, drq);
        case OnWrite => WriteIntr(good, drq);
      }
    }

    method ReadIntr(good: bool, drq: bool)
      requires Queued() && list != [] && doHd == OnRead
      modifies this, request
      ensures Queued() && Abs() == Interrupt(old(Abs()), good, drq)
    {
      FirstRequest();
      var r := request[thisRequest];
      FirstChanged(request[..][thisRequest := r.(nsector := r.nsector - 1)], r.(nsector := r.nsector - 1));
      hide Linked;
      if !good {
        BadRwIntr();
      } else if r.nsector == 2 {
        request[thisRequest] := r.(nsector := r.nsector - 1);
      } else {
        FinishFirst(true);
        DoRequest(drq);
      }
    }

    method WriteIntr(good: bool, drq: bool)
      requires Queued() && list != [] && doHd == OnWrite
      modifies this, request
      ensures Queued() && Abs() == Interrupt(old(Abs()), good, drq)
    {
      FirstRequest();
      var r := request[thisRequest];
      FirstChanged(request[..][thisRequest := r.(nsector := r.nsector - 1)], r.(nsector := r.nsector - 1));
      hide Linked;
      if !good {
        BadRwIntr();
      } else if r.nsector - 1 != 0 {
        request[thisRequest] := r.(nsector := r.nsector - 1);
      } else {
        FinishFirst(true);
        DoRequest(drq);
      }
    }
  }
}
