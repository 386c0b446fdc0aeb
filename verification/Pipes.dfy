/** Pipes (fs/pipe.c) as their readers and writers see them. A process runs until it sleeps; then it is asleep on the
    pipe's one wait queue until somebody wakes all who sleep there. */
module Pipes {
  const SIZE := 4095        // PAGE_SIZE - 1: a full pipe

  type Byte = b: int | 0 <= b < 256

  datatype Proc =
    | Idle
    | Reader(count: int, asleep: bool)
    | Writer(data: seq<Byte>, done: nat, asleep: bool)

  /** `users` is the inode's count: 2 while both ends are open. */
  datatype Pipe = Pipe(bytes: seq<Byte>, users: int, procs: seq<Proc>, accepted: seq<Byte>, delivered: seq<Byte>)

  /** Not yet finished, or a return value, what a reader got, and whether a writer is signalled. */
  datatype Out = Sleeps | Returns(value: int, got: seq<Byte>, sigpipe: bool)

  function Min(a: int, b: int): int { if a < b then a else b }
  function Max(a: int, b: int): int { if a < b then b else a }

  function Wake(p: Proc): Proc {
    if p.Idle? then p else p.(asleep := false)
  }

  function WakeAll(procs: seq<Proc>): (w: seq<Proc>)
    ensures |w| == |procs|
  {
    seq(|procs|, i requires 0 <= i < |procs| => Wake(procs[i]))
  }

  /** read_pipe, from the test for an empty pipe on. */
  function Read(s: Pipe, p: nat, count: int): (Pipe, Out)
    requires p < |s.procs|
  {
    var procs := WakeAll(s.procs);
    if s.bytes == [] then
      if s.users != 2 then (s.(procs := procs[p := Idle]), Returns(0, [], false))
      else (s.(procs := procs[p := Reader(count, true)]), Sleeps)
    else
      var n := Min(Max(count, 0), |s.bytes|);
      (s.(bytes := s.bytes[n..], delivered := s.delivered + s.bytes[..n], procs := procs[p := Idle]),
       Returns(n, s.bytes[..n], false))
  }

  /** The loop of write_pipe, with `done` bytes written. */
  function Write(s: Pipe, p: nat, data: seq<Byte>, done: nat): (Pipe, Out)
    requires p < |s.procs| && done <= |data| && |s.bytes| <= SIZE
  {
    var procs := WakeAll(s.procs);
    var now := done + Min(|data| - done, SIZE - |s.bytes|);
    var t := s.(bytes := s.bytes + data[done..now], accepted := s.accepted + data[done..now]);
    if now == |data| then (t.(procs := procs[p := Idle]), Returns(now, [], false))
    else if s.users != 2 then (t.(procs := procs[p := Idle]), Returns(now, [], true))
    else (t.(procs := procs[p := Writer(data, now, true)]), Sleeps)
  }

  datatype Op =
    | StartRead(p: nat, count: int)
    | StartWrite(p: nat, data: seq<Byte>)
    | Continue(p: nat)        // a process that has been woken
    | Close                   // one end is closed

  predicate Enabled(s: Pipe, op: Op) {
    match op
    case StartRead(p, _) => p < |s.procs| && s.procs[p].Idle?
    case StartWrite(p, _) => p < |s.procs| && s.procs[p].Idle?
    case Continue(p) => p < |s.procs| && !s.procs[p].Idle? && !s.procs[p].asleep
    case Close => true
  }

  function Step(s: Pipe, op: Op): (Pipe, Out)
    requires Enabled(s, op) && Inv(s)
  {
    match op
    case StartRead(p, count) => Read(s, p, count)
    case StartWrite(p, data) =>
      if s.users != 2 then (s.(procs := WakeAll(s.procs)), Returns(-1, [], true)) else Write(s, p, data, 0)
    case Continue(p) =>
      if s.procs[p].Reader? then Read(s, p, s.procs[p].count) else
      assert ProcOk(s, s.procs[p]);
      Write(s, p, s.procs[p].data, s.procs[p].done)
    case Close => (s.(users := s.users - 1, procs := WakeAll(s.procs)), Returns(0, [], false))
  }

  /** Whoever sleeps has cause to: readers, that the pipe is empty, and writers, that it is full; and both ends are open. */
  predicate ProcOk(s: Pipe, p: Proc) {
    && (p.Writer? ==> p.done < |p.data|)
    && (!p.Idle? && p.asleep ==> s.users == 2)
    && (p.Reader? && p.asleep ==> s.bytes == [])
    && (p.Writer? && p.asleep ==> |s.bytes| == SIZE)
  }

  predicate Inv(s: Pipe) {
    && |s.bytes| <= SIZE && s.accepted == s.delivered + s.bytes
    && (forall i | 0 <= i < |s.procs| :: ProcOk(s, s.procs[i]))
  }

  lemma StepInv(s: Pipe, op: Op)
    requires Inv(s) && Enabled(s, op)
    ensures Inv(Step(s, op).0)
  {
    var t := Step(s, op).0;
    forall i | 0 <= i < |t.procs| ensures ProcOk(t, t.procs[i]) {
      assert ProcOk(s, s.procs[i]);
    }
    match op {
      case StartRead(p, count) => ReadBytes(s, p, count);
      case StartWrite(p, data) => if s.users == 2 { WriteBytes(s, p, data, 0); }
      case Continue(p) =>
        if s.procs[p].Reader? { ReadBytes(s, p, s.procs[p].count); }
        else { WriteBytes(s, p, s.procs[p].data, s.procs[p].done); }
      case Close =>
    }
  }

  lemma ReadBytes(s: Pipe, p: nat, count: int)
    requires p < |s.procs| && s.accepted == s.delivered + s.bytes
    ensures var t := Read(s, p, count).0; t.accepted == t.delivered + t.bytes && |t.bytes| <= |s.bytes|
  {
  }

  lemma WriteBytes(s: Pipe, p: nat, data: seq<Byte>, done: nat)
    requires p < |s.procs| && done <= |data| && |s.bytes| <= SIZE && s.accepted == s.delivered + s.bytes
    ensures var t := Write(s, p, data, done).0; t.accepted == t.delivered + t.bytes && |t.bytes| <= SIZE
  {
  }

  // ---------- What one turn comes to ----------

  /** The reader whose turn `op` is wants this many bytes. */
  function Wanted(s: Pipe, op: Op): int
    requires Enabled(s, op) && Reads(s, op)
  {
    if op.StartRead? then op.count else s.procs[op.p].count
  }

  predicate Reads(s: Pipe, op: Op)
    requires Enabled(s, op)
  {
    op.StartRead? || (op.Continue? && s.procs[op.p].Reader?)
  }

  /** A reader sleeps exactly on an empty pipe with a writer, and gets 0 there exactly without one; otherwise it takes what it
      wants, or all there is, from the front, and is told how much that was. Everybody else is woken. */
  lemma ReadIs(s: Pipe, op: Op)
    requires Inv(s) && Enabled(s, op) && Reads(s, op)
    ensures var (t, out) := Step(s, op);
            && |t.procs| == |s.procs| && t.users == s.users && t.accepted == s.accepted
            && (out.Sleeps? <==> s.bytes == [] && s.users == 2)
            && (out.Sleeps? ==> t.procs[op.p] == Reader(Wanted(s, op), true) && t.bytes == [])
            && (out.Returns? ==>
                  && out.value == |out.got| && s.bytes == out.got + t.bytes && t.procs[op.p] == Idle && !out.sigpipe
                  && t.delivered == s.delivered + out.got
                  && (Wanted(s, op) <= 0 ==> out.got == [])
                  && (Wanted(s, op) > 0 ==> out.value <= Wanted(s, op) && (out.value == Wanted(s, op) || t.bytes == [])))
            && forall i | 0 <= i < |t.procs| && i != op.p :: Woken(s.procs[i], t.procs[i])
  {
  }

  /** Closing an end leaves one user less, wakes everybody, and moves no byte. */
  lemma CloseIs(s: Pipe)
    requires Inv(s)
    ensures var t := Step(s, Close).0;
            && t.users == s.users - 1 && t.bytes == s.bytes && t.accepted == s.accepted && t.delivered == s.delivered
            && |t.procs| == |s.procs| && forall i | 0 <= i < |t.procs| :: Woken(s.procs[i], t.procs[i])
  {
  }

  /** Awake, and otherwise the same. */
  predicate Woken(p: Proc, q: Proc) {
    match p
    case Idle => q == Idle
    case Reader(count, _) => q == Reader(count, false)
    case Writer(data, done, _) => q == Writer(data, done, false)
  }

  /** A writer sleeps exactly when the other end is open and its data does not fit; then the pipe is full. */
  lemma WriteIs(s: Pipe, op: Op)
    requires Inv(s) && Enabled(s, op) && Writes(s, op) && (op.StartWrite? ==> s.users == 2)
    ensures var (t, out) := Step(s, op);
            var data, done := Offered(s, op), if op.StartWrite? then 0 else s.procs[op.p].done;
            && done <= |data| && (out.Sleeps? <==> s.users == 2 && |data| - done > 4095 - |s.bytes|)
            && |t.procs| == |s.procs| && t.users == s.users && t.delivered == s.delivered
            && (exists n :: WroteTo(s, t, op.p, data, done, n, out))
            && forall i | 0 <= i < |t.procs| && i != op.p :: Woken(s.procs[i], t.procs[i])
  {
    if op.Continue? { assert ProcOk(s, s.procs[op.p]); }
    var (t, out) := Step(s, op);
    var data, done := Offered(s, op), if op.StartWrite? then 0 else s.procs[op.p].done;
    assert WroteTo(s, t, op.p, data, done, done + Min(|data| - done, SIZE - |s.bytes|), out);
  }

  /** The bytes from `done` to `n` have gone in; more only if the pipe is not full. */
  predicate WroteTo(s: Pipe, t: Pipe, p: nat, data: seq<Byte>, done: nat, n: nat, out: Out) {
    && p < |t.procs| && done <= n <= |data| && t.bytes == s.bytes + data[done..n] && (n == |data| || |t.bytes| == 4095)
    && if out.Sleeps? then t.procs[p] == Writer(data, n, true) else t.procs[p] == Idle && out.value == n
  }

  // ---------- Runs ----------

  ghost predicate Runs(s: Pipe, ops: seq<Op>, outs: seq<Out>, t: Pipe)
    requires Inv(s)
    decreases |ops|
  {
    if ops == [] then outs == [] && t == s
    else
      && outs != [] && Enabled(s, ops[0]) && outs[0] == Step(s, ops[0]).1
      && (StepInv(s, ops[0]); Runs(Step(s, ops[0]).0, ops[1..], outs[1..], t))
  }

  /** All that readers got, in order. */
  function Got(outs: seq<Out>): seq<Byte> {
    if outs == [] then [] else Taken(outs[0]) + Got(outs[1..])
  }

  lemma {:induction false} RunGot(s: Pipe, ops: seq<Op>, outs: seq<Out>, t: Pipe)
    requires Inv(s) && Runs(s, ops, outs, t)
    ensures Inv(t) && t.delivered == s.delivered + Got(outs)
    decreases |ops|
  {
    if ops == [] {
      assert s.delivered + [] == s.delivered;
    } else {
      RunFirst(s, ops, outs, t);
      hide *;
      RunGot(Step(s, ops[0]).0, ops[1..], outs[1..], t);
      Joined(s.delivered, Taken(outs[0]), Got(outs[1..]));
    }
  }

  lemma Joined(a: seq<Byte>, b: seq<Byte>, c: seq<Byte>)
    ensures a + b + c == a + (b + c)
  {
  }

  function Taken(out: Out): seq<Byte> { if out.Returns? then out.got else [] }

  lemma RunFirst(s: Pipe, ops: seq<Op>, outs: seq<Out>, t: Pipe)
    requires Inv(s) && Runs(s, ops, outs, t) && ops != []
    ensures outs != [] && Enabled(s, ops[0]) && Inv(Step(s, ops[0]).0)
    ensures Runs(Step(s, ops[0]).0, ops[1..], outs[1..], t)
    ensures Step(s, ops[0]).0.delivered == s.delivered + Taken(outs[0]) && Got(outs) == Taken(outs[0]) + Got(outs[1..])
  {
    StepInv(s, ops[0]);
    StepGot(s, ops[0]);
  }

  /** Over every interleaving, what the readers got, followed by what is in the pipe, is what the writers put in, in
      order; at most 4095 bytes are in the pipe; a reader and a writer are never both asleep. */
  lemma RunInv(s: Pipe, ops: seq<Op>, outs: seq<Out>, t: Pipe)
    requires Inv(s) && Runs(s, ops, outs, t)
    ensures t.accepted == s.delivered + Got(outs) + t.bytes && |t.bytes| <= 4095
    ensures forall i, j | 0 <= i < |t.procs| && 0 <= j < |t.procs| && t.procs[i].Reader? && t.procs[j].Writer? ::
              !(t.procs[i].asleep && t.procs[j].asleep)
  {
    RunGot(s, ops, outs, t);
    assert forall i | 0 <= i < |t.procs| :: ProcOk(t, t.procs[i]);
  }

  /** What is taken out of the pipe is what the reader gets. */
  lemma StepGot(s: Pipe, op: Op)
    requires Inv(s) && Enabled(s, op)
    ensures Step(s, op).0.delivered == s.delivered + Taken(Step(s, op).1)
  {
  }

  // ---------- Writers ----------

  /** What one turn of process `who` put into the pipe. */
  datatype Sent = Sent(who: nat, bytes: seq<Byte>)

  predicate Writes(s: Pipe, op: Op)
    requires Enabled(s, op)
  {
    op.StartWrite? || (op.Continue? && s.procs[op.p].Writer?)
  }

  /** The data of the write that `op` begins or goes on with. */
  function Offered(s: Pipe, op: Op): seq<Byte>
    requires Enabled(s, op) && Writes(s, op)
  {
    if op.StartWrite? then op.data else s.procs[op.p].data
  }

  /** What the call that has not returned yet has put in. */
  function Begun(q: Proc): seq<Byte> {
    if q.Writer? && q.done <= |q.data| then q.data[..q.done] else []
  }

  /** What the caller of a write that returns with this step learns that it has written. */
  function Reported(s: Pipe, op: Op): seq<Byte>
    requires Inv(s) && Enabled(s, op)
  {
    var out := Step(s, op).1;
    if Writes(s, op) && out.Returns? && 0 <= out.value <= |Offered(s, op)| then Offered(s, op)[..out.value] else []
  }

  function Growth(s: Pipe, op: Op): seq<Byte>
    requires Inv(s) && Enabled(s, op)
  {
    var t := Step(s, op).0;
    if |s.accepted| <= |t.accepted| then t.accepted[|s.accepted|..] else []
  }

  /** A step puts bytes in for its own process alone: with what that process had begun they are what its call reports,
      or what it has begun then. */
  lemma StepWrote(s: Pipe, op: Op, p: nat)
    requires Inv(s) && Enabled(s, op) && p < |s.procs|
    ensures var t := Step(s, op).0; |t.procs| == |s.procs| && t.accepted == s.accepted + Growth(s, op)
    ensures var q := Step(s, op).0.procs[p];
            if !op.Close? && op.p == p then Begun(s.procs[p]) + Growth(s, op) == Reported(s, op) + Begun(q)
            else Begun(q) == Begun(s.procs[p])
    ensures op.Close? ==> Growth(s, op) == []
  {
    hide Read, Write;
    if op.StartWrite? && s.users == 2 {
      WriteTurn(s, op.p, op.data, 0);
    } else if op.Continue? && s.procs[op.p].Writer? {
      assert ProcOk(s, s.procs[op.p]);
      WriteTurn(s, op.p, s.procs[op.p].data, s.procs[op.p].done);
    } else if !op.Close? && !op.StartWrite? {
      ReadTurn(s, op.p, if op.StartRead? then op.count else s.procs[op.p].count);
    }
  }

  lemma WriteTurn(s: Pipe, p: nat, data: seq<Byte>, done: nat)
    requires p < |s.procs| && done <= |data| && |s.bytes| <= SIZE
    ensures var (t, out) := Write(s, p, data, done);
            && |s.accepted| <= |t.accepted| && t.accepted[..|s.accepted|] == s.accepted
            && OthersBegun(s, t, p) && (out.Returns? ==> Begun(t.procs[p]) == [])
            && data[..done] + t.accepted[|s.accepted|..]
               == (if out.Returns? then if 0 <= out.value <= |data| then data[..out.value] else [] else Begun(t.procs[p]))
  {
  }

  predicate OthersBegun(s: Pipe, t: Pipe, p: nat) {
    && |t.procs| == |s.procs|
    && forall i | 0 <= i < |s.procs| && i != p :: Begun(t.procs[i]) == Begun(s.procs[i])
  }

  lemma ReadTurn(s: Pipe, p: nat, count: int)
    requires p < |s.procs|
    ensures var t := Read(s, p, count).0;
            t.accepted == s.accepted && OthersBegun(s, t, p) && Begun(t.procs[p]) == []
  {
  }

  /** A write stops short exactly when it signals, which it does only when the other end is closed; it reports -1 at
      once when that is so at its start. */
  lemma ShortIff(s: Pipe, op: Op)
    requires Inv(s) && Enabled(s, op) && Writes(s, op) && Step(s, op).1.Returns?
    ensures var out := Step(s, op).1;
            && -1 <= out.value <= |Offered(s, op)|
            && (out.value == -1 <==> op.StartWrite? && s.users != 2)
            && (out.value < |Offered(s, op)| <==> out.sigpipe)
            && (out.sigpipe <==> s.users != 2 && (op.StartWrite? || |Offered(s, op)| - s.procs[op.p].done > SIZE - |s.bytes|))
  {
    if op.Continue? { assert ProcOk(s, s.procs[op.p]); }
  }

  /** What went into the pipe over a run, turn by turn. */
  ghost function Log(s: Pipe, ops: seq<Op>, outs: seq<Out>, t: Pipe): seq<Sent>
    requires Inv(s) && Runs(s, ops, outs, t)
    decreases |ops|
  {
    if ops == [] then [] else
    RunFirst(s, ops, outs, t);
    (if ops[0].Close? then [] else [Sent(ops[0].p, Growth(s, ops[0]))]) + Log(Step(s, ops[0]).0, ops[1..], outs[1..], t)
  }

  function All(log: seq<Sent>): seq<Byte> {
    if log == [] then [] else log[0].bytes + All(log[1..])
  }

  /** What process `p` put in. */
  function Of(log: seq<Sent>, p: nat): seq<Byte> {
    if log == [] then [] else (if log[0].who == p then log[0].bytes else []) + Of(log[1..], p)
  }

  /** The values of the finished writes of process `p`, as data: `data[..v]` for each that returned `v`, in order. */
  ghost function Written(s: Pipe, ops: seq<Op>, outs: seq<Out>, t: Pipe, p: nat): seq<Byte>
    requires Inv(s) && Runs(s, ops, outs, t)
    decreases |ops|
  {
    if ops == [] then [] else
    RunFirst(s, ops, outs, t);
    (if !ops[0].Close? && ops[0].p == p then Reported(s, ops[0]) else [])
    + Written(Step(s, ops[0]).0, ops[1..], outs[1..], t, p)
  }

  /** Over every interleaving, the bytes accepted are the turns of the log one after another; and what a process has in
      the log, after what it had begun before, is `data[..v]` for each of its writes that returned `v`, in order, and
      then what it has begun of a write that has not returned. */
  lemma {:induction false} RunWrote(s: Pipe, ops: seq<Op>, outs: seq<Out>, t: Pipe, p: nat)
    requires Inv(s) && Runs(s, ops, outs, t) && p < |s.procs|
    ensures |t.procs| == |s.procs| && t.accepted == s.accepted + All(Log(s, ops, outs, t))
    ensures Begun(s.procs[p]) + Of(Log(s, ops, outs, t), p) == Written(s, ops, outs, t, p) + Begun(t.procs[p])
    decreases |ops|
  {
    if ops == [] {
      assert s.accepted + [] == s.accepted && Begun(s.procs[p]) + [] == [] + Begun(s.procs[p]);
    } else {
      var u, log, g := Step(s, ops[0]).0, Log(s, ops, outs, t), Growth(s, ops[0]);
      RunFirst(s, ops, outs, t);
      StepWrote(s, ops[0], p);
      RunWrote(u, ops[1..], outs[1..], t, p);
      var rest := Log(u, ops[1..], outs[1..], t);
      LogFirst(s, ops, outs, t, p);
      hide *;
      Joined(s.accepted, g, All(rest));
      var mine := if !ops[0].Close? && ops[0].p == p then g else [];
      var told := if !ops[0].Close? && ops[0].p == p then Reported(s, ops[0]) else [];
      assert Begun(s.procs[p]) + mine == told + Begun(u.procs[p]) by {
        if ops[0].Close? || ops[0].p != p { assert Begun(u.procs[p]) + [] == [] + Begun(u.procs[p]); }
      }
      Joined(Begun(s.procs[p]), mine, Of(rest, p));
      Joined(told, Begun(u.procs[p]), Of(rest, p));
      Joined(told, Written(u, ops[1..], outs[1..], t, p), Begun(t.procs[p]));
    }
  }

  lemma LogFirst(s: Pipe, ops: seq<Op>, outs: seq<Out>, t: Pipe, p: nat)
    requires Inv(s) && Runs(s, ops, outs, t) && ops != [] && p < |s.procs|
    ensures outs != [] && Enabled(s, ops[0]) && Inv(Step(s, ops[0]).0)
    ensures Runs(Step(s, ops[0]).0, ops[1..], outs[1..], t)
    ensures var rest := Log(Step(s, ops[0]).0, ops[1..], outs[1..], t); var log := Log(s, ops, outs, t);
            && All(log) == Growth(s, ops[0]) + All(rest)
            && Of(log, p) == (if !ops[0].Close? && ops[0].p == p then Growth(s, ops[0]) else []) + Of(rest, p)
    ensures Written(s, ops, outs, t, p) == (if !ops[0].Close? && ops[0].p == p then Reported(s, ops[0]) else [])
                                           + Written(Step(s, ops[0]).0, ops[1..], outs[1..], t, p)
  {
    RunFirst(s, ops, outs, t);
    StepWrote(s, ops[0], p);
    var rest := Log(Step(s, ops[0]).0, ops[1..], outs[1..], t);
    var log := Log(s, ops, outs, t);
    if ops[0].Close? {
      assert log == rest;
    } else {
      assert log[1..] == rest;
    }
  }

  // ---------- Counting ----------

  /** The sum of what the writes of a run returned, -1 counting as nothing. */
  ghost function Values(s: Pipe, ops: seq<Op>, outs: seq<Out>, t: Pipe): int
    requires Inv(s) && Runs(s, ops, outs, t)
    decreases |ops|
  {
    if ops == [] then 0 else
    RunFirst(s, ops, outs, t);
    Value(s, ops[0]) + Values(Step(s, ops[0]).0, ops[1..], outs[1..], t)
  }

  function Value(s: Pipe, op: Op): int
    requires Inv(s) && Enabled(s, op)
  {
    var out := Step(s, op).1;
    if Writes(s, op) && out.Returns? then Max(out.value, 0) else 0
  }

  /** The bytes of all writes that have not returned. */
  function Pending(procs: seq<Proc>): nat {
    if procs == [] then 0 else |Begun(procs[0])| + Pending(procs[1..])
  }

  lemma {:induction false} PendingSame(a: seq<Proc>, b: seq<Proc>, p: nat)
    requires |a| == |b| && p <= |a|
    requires forall i | 0 <= i < |a| && i != p :: Begun(b[i]) == Begun(a[i])
    ensures Pending(b) - Pending(a) == if p < |a| then |Begun(b[p])| - |Begun(a[p])| else 0
  {
    if a != [] {
      forall i | 0 <= i < |a[1..]| && (p == 0 || i != p - 1) ensures Begun(b[1..][i]) == Begun(a[1..][i]) {}
      PendingSame(a[1..], b[1..], if p == 0 then |a| - 1 else p - 1);
    }
  }

  /** A step grows the pipe by the value it returns and by what its process has begun more. */
  lemma StepCounts(s: Pipe, op: Op)
    requires Inv(s) && Enabled(s, op)
    ensures var t := Step(s, op).0;
            |t.accepted| - |s.accepted| == Value(s, op) + Pending(t.procs) - Pending(s.procs)
  {
    var t := Step(s, op).0;
    var p: nat := if op.Close? then |s.procs| else op.p;
    assert |t.procs| == |s.procs|;
    forall i: nat | i < |s.procs| && i != p ensures Begun(t.procs[i]) == Begun(s.procs[i]) { StepWrote(s, op, i); }
    PendingSame(s.procs, t.procs, p);
    if op.Close? {
      assert |t.accepted| == |s.accepted|;
    } else {
      StepWrote(s, op, p);
      if Writes(s, op) && Step(s, op).1.Returns? {
        ShortIff(s, op);
        assert |Reported(s, op)| == Value(s, op);
      }
    }
  }

  /** Over every interleaving, the values returned and the bytes still pending add up to what the pipe has accepted. */
  lemma {:induction false} RunCounts(s: Pipe, ops: seq<Op>, outs: seq<Out>, t: Pipe)
    requires Inv(s) && Runs(s, ops, outs, t)
    ensures |t.accepted| - |s.accepted| == Values(s, ops, outs, t) + Pending(t.procs) - Pending(s.procs)
    decreases |ops|
  {
    if ops != [] {
      RunFirst(s, ops, outs, t);
      StepCounts(s, ops[0]);
      RunCounts(Step(s, ops[0]).0, ops[1..], outs[1..], t);
    }
  }
}
