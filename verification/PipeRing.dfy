/** fs/pipe.c: the bytes of a pipe are in a ring, one page with a head and a tail. */
module PipeRing {
  import opened Pipes

  const PAGE_SIZE := 4096

  /** INC_PIPE */
  function Inc(i: nat): nat { (i + 1) % PAGE_SIZE }

  /** The bytes from `tail` up to `head`, round the end of the page. */
  function Ring(page: seq<Byte>, tail: nat, head: nat): (r: seq<Byte>)
    requires |page| == PAGE_SIZE && tail < PAGE_SIZE && head < PAGE_SIZE
    ensures |r| == (head - tail) % PAGE_SIZE <= SIZE
  {
    seq((head - tail) % PAGE_SIZE, i requires 0 <= i < PAGE_SIZE => page[(tail + i) % PAGE_SIZE])
  }

  lemma RingTake(page: seq<Byte>, tail: nat, head: nat)
    requires |page| == PAGE_SIZE && tail < PAGE_SIZE && head < PAGE_SIZE && tail != head
    ensures Ring(page, tail, head) == [page[tail]] + Ring(page, Inc(tail), head)
  {
    var r, q := Ring(page, tail, head), Ring(page, Inc(tail), head);
    assert |r| == |q| + 1;
    forall i | 0 <= i < |q| ensures r[i + 1] == q[i] {
      assert (tail + (i + 1)) % PAGE_SIZE == (Inc(tail) + i) % PAGE_SIZE;
    }
  }

  lemma RingAdd(page: seq<Byte>, tail: nat, head: nat, b: Byte)
    requires |page| == PAGE_SIZE && tail < PAGE_SIZE && head < PAGE_SIZE && (head - tail) % PAGE_SIZE < SIZE
    ensures Ring(page[head := b], tail, Inc(head)) == Ring(page, tail, head) + [b]
  {
    var r, q := Ring(page, tail, head), Ring(page[head := b], tail, Inc(head));
    assert |q| == |r| + 1;
    forall i | 0 <= i < |r| ensures q[i] == r[i] {
      assert (tail + i) % PAGE_SIZE != head;
    }
    assert (tail + |r|) % PAGE_SIZE == head;
  }

  /** The ring is empty when head and tail meet; so it never holds a whole page. */
  lemma RingEmpty(page: seq<Byte>, tail: nat, head: nat)
    requires |page| == PAGE_SIZE && tail < PAGE_SIZE && head < PAGE_SIZE
    ensures Ring(page, tail, head) == [] <==> tail == head
  {
  }

  class PipeInode {
    const page: array<Byte>
    const procs: array<Proc>
    var head: nat
    var tail: nat
    var users: int                  // i_count
    ghost var accepted: seq<Byte>
    ghost var delivered: seq<Byte>

    ghost predicate Shape()
      reads this
    {
      page.Length == PAGE_SIZE && head < PAGE_SIZE && tail < PAGE_SIZE
    }

    ghost function Abs(): (s: Pipe)
      requires Shape()
      reads this, page, procs
      ensures |s.procs| == procs.Length && |s.bytes| <= SIZE
    {
      Pipe(Ring(page[..], tail, head), users, procs[..], accepted, delivered)
    }

    ghost predicate Valid()
      reads this, page, procs
    {
      Shape() && Inv(Abs())
    }

    /** get_pipe_inode */
    constructor (processes: nat)
      ensures Valid() && fresh(page) && fresh(procs) && procs.Length == processes
      ensures Abs() == Pipe([], 2, seq(processes, _ => Idle), [], [])
    {
      page := new Byte[PAGE_SIZE](_ => 0);
      procs := new Proc[processes](_ => Idle);
      head, tail, users, accepted, delivered := 0, 0, 2, [], [];
    }

    method WakeUp()
      modifies procs
      ensures procs[..] == WakeAll(old(procs[..]))
    {
      forall i | 0 <= i < procs.Length { procs[i] := Wake(procs[i]); }
    }

    /** read_pipe, for a process that has just called it or has been woken. */
    method ReadPipe(p: nat, count: int) returns (out: Out)
      requires Shape() && p < procs.Length
      modifies this, page, procs
      ensures Shape() && (Abs(), out) == Read(old(Abs()), p, count)
    {
      RingEmpty(page[..], tail, head);
      WakeUp();
      if head == tail {
        if users != 2 {
          procs[p] := Idle;
          return Returns(0, [], false);
        }
        procs[p] := Reader(count, true);
        return Sleeps;
      }
      var got := Take(count);
      procs[p] := Idle;
      return Returns(|got|, got, false);
    }

    method Take(count: int) returns (got: seq<Byte>)
      requires Shape()
      modifies this`tail, this`delivered
      ensures Shape()
      ensures var bytes := Ring(page[..], old(tail), head); var n := Min(Max(count, 0), |bytes|);
              && got == bytes[..n] && Ring(page[..], tail, head) == bytes[n..] && delivered == old(delivered) + got
    {
      ghost var bytes := Ring(page[..], tail, head);
      var left := count;
      got := [];
      while left > 0 && head != tail
        invariant Shape() && |got| <= |bytes| && left == count - |got| && (|got| > 0 ==> left >= 0)
        invariant got == bytes[..|got|] && Ring(page[..], tail, head) == bytes[|got|..]
        invariant delivered == old(delivered) + got
        decreases left
      {
        left := left - 1;
        RingTake(page[..], tail, head);
        assert bytes[|got|] == page[tail];
        got := got + [page[tail]];
        delivered := delivered + [page[tail]];
        tail := Inc(tail);
      }
      RingEmpty(page[..], tail, head);
    }

    /** The loop of write_pipe, for a process that has just entered it or has been woken. */
    method WriteLoop(p: nat, data: seq<Byte>, done: nat) returns (out: Out)
      requires Shape() && p < procs.Length && done <= |data|
      modifies this, page, procs
      ensures Shape() && (Abs(), out) == Write(old(Abs()), p, data, done)
    {
      var now := Add(data, done);
      WakeUp();
      if now == |data| {
        procs[p] := Idle;
        return Returns(now, [], false);
      }
      if users != 2 {
        procs[p] := Idle;
        return Returns(now, [], true);
      }
      procs[p] := Writer(data, now, true);
      return Sleeps;
    }

    /** Bytes go in until all have, or the pipe is full. */
    method Add(data: seq<Byte>, done: nat) returns (now: nat)
      requires Shape() && done <= |data|
      modifies this`head, this`accepted, page
      ensures Shape()
      ensures var bytes := Ring(old(page[..]), tail, old(head));
              && now == done + Min(|data| - done, SIZE - |bytes|)
              && Ring(page[..], tail, head) == bytes + data[done..now] && accepted == old(accepted) + data[done..now]
    {
      ghost var bytes := Ring(page[..], tail, head);
      now := done;
      while now < |data| && (head - tail) % PAGE_SIZE != SIZE
        invariant Shape() && done <= now <= |data|
        invariant Ring(page[..], tail, head) == bytes + data[done..now] && accepted == old(accepted) + data[done..now]
      {
        RingAdd(page[..], tail, head, data[now]);
        page[head] := data[now];
        head := Inc(head);
        accepted := accepted + [data[now]];
        assert data[done..now + 1] == data[done..now] + [data[now]];
        now := now + 1;
      }
    }

    method WritePipe(p: nat, data: seq<Byte>) returns (out: Out)
      requires Valid() && p < procs.Length && procs[p].Idle?
      modifies this, page, procs
      ensures Valid() && (Abs(), out) == Step(old(Abs()), StartWrite(p, data))
    {
      StepInv(Abs(), StartWrite(p, data));
      if users != 2 {
        WakeUp();
        return Returns(-1, [], true);
      }
      out := WriteLoop(p, data, 0);
    }

    method Do(op: Op) returns (out: Out)
      requires Valid() && Enabled(Abs(), op)
      modifies this, page, procs
      ensures Valid() && (Abs(), out) == Step(old(Abs()), op)
    {
      StepInv(Abs(), op);
      match op {
        case StartRead(p, count) => out := ReadPipe(p, count);
        case StartWrite(p, data) => out := WritePipe(p, data);
        case Continue(p) =>
          assert ProcOk(Abs(), procs[p]);
          if procs[p].Reader? { out := ReadPipe(p, procs[p].count); }
          else { out := WriteLoop(p, procs[p].data, procs[p].done); }
        case Close =>
          WakeUp();
          users := users - 1;
          out := Returns(0, [], false);
      }
    }
  }
}
