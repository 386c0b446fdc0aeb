/** getblk with many processes: a process runs until it sleeps, so its steps lie between the places where it may sleep
    (waiting for a locked buffer, and writing out the device of the buffer it has chosen). A process that holds several
    buffers counts once for each. The links of the free list are as in the source, since a process that slept on a buffer
    goes on from there, wherever that buffer is by then. The hash chains are left out: a buffer is hashed or not. */
module BufferRaces {
  import opened Collections
  import opened BufferLinks
  import opened BufferIndex

  datatype Buf = Buf(key: Key, count: nat, hashed: bool, locked: bool, dirt: bool)

  datatype Proc =
    | Idle
    | Looking(k: Key)               // at `repeat`
    | Waiting(k: Key, b: nat)       // in get_hash_table, for the buffer it found
    | Scanning(k: Key, b: nat)      // asleep in the scan of the free list, on a buffer that it does not hold
    | Syncing(k: Key, b: nat)       // asleep in sync_dev; the buffer it chose is in no queue
    | Holding(k: Key, b: nat)

  /** `next`, `prev` and `head` are the free list; a buffer in no queue keeps its old links. At most `tasks` processes are
      inside getblk at a time. */
  datatype State = State(bufs: seq<Buf>, next: seq<nat>, prev: seq<nat>, head: nat, procs: seq<Proc>, tasks: nat)

  datatype Step =
    | Call(p: nat, k: Key)
    | Find(p: nat, b: nat)          // find_buffer succeeds
    | Scan(p: nat)                  // the free list, from its head, or from the buffer slept on
    | Finish(p: nat)                // the device is written
    | Awake(p: nat)
    | Release(p: nat)
    | Device(b: nat, locked: bool, dirt: bool)    // the disk, sync or a holder locks, unlocks, dirties or cleans a buffer

  predicate Shape(s: State) {
    && |s.next| == |s.prev| == |s.bufs| && s.head < |s.bufs|
    && (forall b | 0 <= b < |s.bufs| :: s.next[b] < |s.bufs| && s.prev[b] < |s.bufs|)
    && (forall i | 0 <= i < |s.procs| && HasBuffer(s.procs[i]) :: s.procs[i].b < |s.bufs|)
  }

  predicate HasBuffer(p: Proc) { p.Waiting? || p.Scanning? || p.Syncing? || p.Holding? }

  predicate Shows(s: State, k: Key, b: nat) {
    b < |s.bufs| && s.bufs[b].hashed && s.bufs[b].key == k
  }

  predicate IsCached(s: State, k: Key) {
    exists b: nat | b < |s.bufs| :: Shows(s, k, b)
  }

  /** Where a scan stops: asleep on a locked buffer, or with the buffer it takes. */
  datatype Walked = Sleeps(b: nat) | Takes(b: nat) | Endless

  /** The scan from buffer `b` on. When it comes round to the head, it takes the head, whatever its count. */
  function Walk(s: State, b: nat, n: nat): (w: Walked)
    requires Shape(s) && b < |s.bufs|
    ensures !w.Endless? ==> w.b < |s.bufs|
    ensures w.Takes? ==> w.b == s.head || s.bufs[w.b].count == 0
    ensures w.Sleeps? ==> s.bufs[w.b].count == 0
    decreases n
  {
    if n == 0 then Endless
    else if s.bufs[b].count == 0 then if s.bufs[b].locked then Sleeps(b) else Takes(b)
    else if s.next[b] == s.head then Takes(s.head)
    else Walk(s, s.next[b], n - 1)
  }

  function Scanned(s: State, i: nat): (w: Walked)
    requires Shape(s) && i < |s.procs| && (s.procs[i].Looking? || s.procs[i].Scanning?)
    ensures !w.Endless? ==> w.b < |s.bufs|
    ensures w.Takes? ==> w.b == s.head || s.bufs[w.b].count == 0
  {
    Walk(s, if s.procs[i].Looking? then s.head else s.procs[i].b, |s.bufs|)
  }

  predicate IsInside(p: Proc) { !p.Idle? && !p.Holding? }

  function Inside(s: State): set<nat> {
    set i: nat | i < |s.procs| && IsInside(s.procs[i])
  }

  /** Giving a buffer back that nobody holds is a panic: no step is enabled then. */
  predicate Enabled(s: State, step: Step) {
    && Shape(s)
    && if step.Device? then step.b < |s.bufs| else
    && step.p < |s.procs|
    && var p := s.procs[step.p];
    match step
    case Call(_, _) => p.Idle? && |Inside(s)| < s.tasks
    case Find(_, b) => p.Looking? && Shows(s, p.k, b)
    case Scan(_) =>
      && ((p.Looking? && !IsCached(s, p.k)) || (p.Scanning? && !s.bufs[p.b].locked))
      && !Scanned(s, step.p).Endless?
    case Finish(_) => p.Syncing?
    case Awake(_) => p.Waiting? && !s.bufs[p.b].locked && (s.bufs[p.b].key == p.k || s.bufs[p.b].count > 0)
    case Release(_) => p.Holding? && !s.bufs[p.b].locked && s.bufs[p.b].count > 0
    case Device(_, _, _) => true
  }

  function Do(s: State, step: Step): State
    requires Enabled(s, step)
  {
    if step.Device? then SetBuf(s, step.b, s.bufs[step.b].(locked := step.locked, dirt := step.dirt)) else
    var i, p := step.p, s.procs[step.p];
    match step
    case Call(_, k) => SetProc(s, i, Looking(k))
    case Find(_, b) =>
      var t := SetBuf(s, b, s.bufs[b].(count := s.bufs[b].count + 1));
      SetProc(t, i, if s.bufs[b].locked then Waiting(p.k, b) else Holding(p.k, b))
    case Scan(_) =>
      var w := Scanned(s, i);
      if w.Sleeps? then SetProc(s, i, Scanning(p.k, w.b))
      else if s.bufs[w.b].dirt then Grab(s, i, p.k, w.b)
      else Settle(Grab(s, i, p.k, w.b), i, p.k, w.b)
    case Finish(_) => Settle(s, i, p.k, p.b)
    case Awake(_) =>
      if s.bufs[p.b].key == p.k then SetProc(s, i, Holding(p.k, p.b))
      else SetProc(SetBuf(s, p.b, s.bufs[p.b].(count := s.bufs[p.b].count - 1)), i, Looking(p.k))
    case Release(_) => SetProc(SetBuf(s, p.b, s.bufs[p.b].(count := s.bufs[p.b].count - 1)), i, Idle)
  }

  /** The buffer is counted and taken out of the queues. */
  function Grab(s: State, i: nat, k: Key, b: nat): (t: State)
    requires Shape(s) && i < |s.procs| && b < |s.bufs|
    ensures Shape(t) && |t.bufs| == |s.bufs| && |t.procs| == |s.procs|
  {
    var f := s.bufs[b];
    Unlink(SetProc(SetBuf(s, b, f.(count := f.count + 1, hashed := false)), i, Syncing(k, b)), b)
  }

  /** The buffer goes back into the queues: for the block, or, when the block has been cached meanwhile, for none. */
  function Settle(s: State, i: nat, k: Key, b: nat): (t: State)
    requires Shape(s) && i < |s.procs| && b < |s.bufs|
    ensures Shape(t) && |t.bufs| == |s.bufs| && |t.procs| == |s.procs|
  {
    var f := s.bufs[b];
    if IsCached(s, k) then
      Link(SetProc(SetBuf(s, b, f.(key := Key(0, 0), count := 0, hashed := false, dirt := false)), i, Looking(k)), b)
    else
      Link(SetProc(SetBuf(s, b, f.(key := k, hashed := k.dev != 0, dirt := false)), i, Holding(k, b)), b)
  }

  function Unlink(s: State, b: nat): (t: State)
    requires Shape(s) && b < |s.bufs|
    ensures Shape(t)
  {
    var n, p := s.next[b], s.prev[b];
    s.(next := s.next[p := n], prev := s.prev[n := p], head := if s.head == b then n else s.head)
  }

  function Link(s: State, b: nat): (t: State)
    requires Shape(s) && b < |s.bufs|
    ensures Shape(t)
  {
    var last := s.prev[s.head];
    s.(next := s.next[b := s.head][last := b], prev := s.prev[b := last][s.head := b])
  }

  function SetBuf(s: State, b: nat, f: Buf): (t: State)
    requires b < |s.bufs|
    ensures Shape(s) ==> Shape(t)
  {
    s.(bufs := s.bufs[b := f])
  }

  function SetProc(s: State, i: nat, p: Proc): (t: State)
    requires i < |s.procs|
    ensures Shape(s) && (HasBuffer(p) ==> p.b < |s.bufs|) ==> Shape(t)
  {
    s.(procs := s.procs[i := p])
  }

  predicate Holds(p: Proc, b: nat) {
    (p.Waiting? || p.Syncing? || p.Holding?) && p.b == b
  }

  function Holders(s: State, b: nat): set<nat> {
    set i: nat | i < |s.procs| && Holds(s.procs[i], b)
  }

  // ---------- What holds as long as nobody puts back a buffer that others hold ----------

  predicate Syncs(s: State, i: nat, b: nat) {
    i < |s.procs| && s.procs[i].Syncing? && s.procs[i].b == b
  }

  /** `off` are the buffers in no queue, the last one taken out last; so their old links lead to the free list. */
  predicate Ahead(s: State, ring: seq<nat>, off: seq<nat>, m: nat)
    requires m < |off|
  {
    off[m] < |s.next| && (s.next[off[m]] in ring || s.next[off[m]] in off[m + 1..])
  }

  predicate BufOk(s: State, off: seq<nat>, b: nat)
    requires b < |s.bufs|
  {
    && s.bufs[b].count == |Holders(s, b)|
    && (s.bufs[b].hashed <==> b !in off && s.bufs[b].key.dev != 0)
  }

  /** The free list holds exactly the buffers that no process has taken out. */
  ghost predicate Listed(s: State, ring: seq<nat>, off: seq<nat>) {
    && Shape(s) && Ring(s.next, s.prev, s.head, ring) && Distinct(off)
    && (forall b: nat | b < |s.bufs| :: b in ring <==> b !in off)
    && (forall b | b in off :: b < |s.bufs|)
    && (forall m: nat | m < |off| :: Ahead(s, ring, off, m))
  }

  ghost predicate Synced(s: State, off: seq<nat>) {
    && (forall i, b | Syncs(s, i, b) :: b in off)
    && (forall b | b in off :: exists i :: Syncs(s, i, b))
    && (forall i, j, b | Syncs(s, i, b) && Syncs(s, j, b) :: i == j)
  }

  ghost predicate OneEach(s: State) {
    forall k, b, c | Shows(s, k, b) && Shows(s, k, c) :: b == c
  }

  ghost predicate SoundAs(s: State, ring: seq<nat>, off: seq<nat>) {
    && Listed(s, ring, off) && Synced(s, off) && OneEach(s)
    && (forall b: nat | b < |s.bufs| :: BufOk(s, off, b))
    && |Inside(s)| <= s.tasks < |s.bufs|
  }

  ghost predicate Sound(s: State) {
    exists ring, off :: SoundAs(s, ring, off)
  }

  /** After boot: nothing is cached and nobody runs; there are more buffers than tasks. */
  predicate Boot(s: State) {
    && (forall b: nat | b < |s.bufs| :: s.bufs[b].count == 0 && !s.bufs[b].hashed && s.bufs[b].key.dev == 0)
    && (forall i: nat | i < |s.procs| :: s.procs[i].Idle?)
    && s.tasks < |s.bufs| == |s.next| == |s.prev| && s.head == 0
    && (forall b: nat | b < |s.bufs| :: s.next[b] == Succ(b, |s.bufs|) && s.prev[b] == Pred(b, |s.bufs|))
  }

  lemma BootSound(s: State)
    requires Boot(s)
    ensures Sound(s)
  {
    var ring := seq(|s.bufs|, b requires 0 <= b < |s.bufs| => b);
    forall b: nat | b < |s.bufs| ensures BufOk(s, [], b) && b in ring {
      assert Holders(s, b) == {} && ring[b] == b;
    }
    forall m | 0 <= m < |ring| ensures RingAt(s.next, s.prev, ring, m) {
      assert ring[m] == m && ring[Succ(m, |ring|)] == Succ(m, |ring|) && ring[Pred(m, |ring|)] == Pred(m, |ring|);
    }
    assert Inside(s) == {};
    assert SoundAs(s, ring, []);
  }

  /** Process `i` moves on: what happens to the holders of `b`, and to those inside getblk. */
  lemma Holders1(s: State, t: State, i: nat, b: nat)
    requires i < |s.procs| == |t.procs| && t.procs == s.procs[i := t.procs[i]]
    ensures Holds(s.procs[i], b) == Holds(t.procs[i], b) ==> Holders(t, b) == Holders(s, b)
    ensures !Holds(s.procs[i], b) && Holds(t.procs[i], b) ==> |Holders(t, b)| == |Holders(s, b)| + 1
    ensures Holds(s.procs[i], b) && !Holds(t.procs[i], b) ==> |Holders(t, b)| == |Holders(s, b)| - 1
  {
    hide Holds;
    var others := Holders(s, b) - {i};
    assert Holders(s, b) == if Holds(s.procs[i], b) then others + {i} else others;
    assert Holders(t, b) == if Holds(t.procs[i], b) then others + {i} else others;
  }

  lemma Inside1(s: State, t: State, i: nat)
    requires i < |s.procs| == |t.procs| && t.procs == s.procs[i := t.procs[i]]
    ensures IsInside(t.procs[i]) ==> IsInside(s.procs[i]) || |Inside(t)| == |Inside(s)| + 1
    ensures IsInside(s.procs[i]) || !IsInside(t.procs[i]) ==> |Inside(t)| <= |Inside(s)|
  {
    hide IsInside;
    if IsInside(s.procs[i]) || !IsInside(t.procs[i]) {
      Fewer(Inside(t), Inside(s));
    } else {
      assert Inside(t) == Inside(s) + {i};
    }
  }

  /** A buffer in no queue is held by the process that took it out. */
  lemma OffHeld(s: State, ring: seq<nat>, off: seq<nat>, b: nat)
    requires SoundAs(s, ring, off) && b in off
    ensures b < |s.bufs| && s.bufs[b].count > 0
  {
    var i :| Syncs(s, i, b);
    assert BufOk(s, off, b) && i in Holders(s, b);
  }

  /** A step that leaves the lists alone. */
  lemma StepUnlisted(s: State, t: State, i: nat, ring: seq<nat>, off: seq<nat>)
    requires SoundAs(s, ring, off) && Shape(t) && i < |s.procs| == |t.procs| && t.procs == s.procs[i := t.procs[i]]
    requires t == s.(bufs := t.bufs, procs := t.procs) && |t.bufs| == |s.bufs|
    requires !s.procs[i].Syncing? && !t.procs[i].Syncing? && |Inside(t)| <= t.tasks
    requires forall b: nat | b < |s.bufs| ::
               && t.bufs[b].key == s.bufs[b].key && t.bufs[b].hashed == s.bufs[b].hashed
               && t.bufs[b].count == s.bufs[b].count + (if Holds(t.procs[i], b) then 1 else 0)
                                     - (if Holds(s.procs[i], b) then 1 else 0)
    ensures SoundAs(t, ring, off)
  {
    forall b: nat | b < |s.bufs| ensures BufOk(t, off, b) {
      assert BufOk(s, off, b);
      Holders1(s, t, i, b);
    }
    assert forall j, b :: Syncs(t, j, b) <==> Syncs(s, j, b);
    assert forall k, b | Shows(t, k, b) :: Shows(s, k, b);
    forall m: nat | m < |off| ensures Ahead(t, ring, off, m) { assert Ahead(s, ring, off, m); }
  }

  lemma DeviceSound(s: State, b: nat, locked: bool, dirt: bool, ring: seq<nat>, off: seq<nat>)
    requires SoundAs(s, ring, off) && b < |s.bufs|
    ensures SoundAs(SetBuf(s, b, s.bufs[b].(locked := locked, dirt := dirt)), ring, off)
  {
    var t := SetBuf(s, b, s.bufs[b].(locked := locked, dirt := dirt));
    forall c: nat | c < |s.bufs| ensures BufOk(t, off, c) {
      assert BufOk(s, off, c) && Holders(t, c) == Holders(s, c);
    }
    assert forall j, c :: Syncs(t, j, c) <==> Syncs(s, j, c);
    assert forall k, c | Shows(t, k, c) :: Shows(s, k, c);
    assert Inside(t) == Inside(s);
    forall m: nat | m < |off| ensures Ahead(t, ring, off, m) { assert Ahead(s, ring, off, m); }
  }

  // ---------- Taking a buffer out, and putting it back ----------

  function SyncersOf(s: State, off: seq<nat>): set<nat> {
    set i: nat | i < |s.procs| && s.procs[i].Syncing? && s.procs[i].b in off
  }

  lemma {:induction false} OffCount(s: State, off: seq<nat>)
    requires Distinct(off) && forall b | b in off :: exists i :: Syncs(s, i, b)
    ensures |off| <= |SyncersOf(s, off)|
  {
    if off != [] {
      var init, b := off[..|off| - 1], off[|off| - 1];
      assert off == init + [b];
      forall c | c in init ensures exists i :: Syncs(s, i, c) { assert c in off; }
      OffCount(s, init);
      assert b in off;
      var i :| Syncs(s, i, b);
      assert b !in init && i !in SyncersOf(s, init);
      Fewer(SyncersOf(s, init) + {i}, SyncersOf(s, off));
    }
  }

  /** While a process looks for a buffer, there are at least two on the free list. */
  lemma RingLong(s: State, i: nat, ring: seq<nat>, off: seq<nat>)
    requires SoundAs(s, ring, off) && i < |s.procs| && IsInside(s.procs[i]) && !s.procs[i].Syncing?
    ensures |ring| > 1
  {
    OffCount(s, off);
    Fewer(SyncersOf(s, off) + {i}, Inside(s));
    RingAll(s, ring, off);
  }

  lemma RingAll(s: State, ring: seq<nat>, off: seq<nat>)
    requires Listed(s, ring, off)
    ensures |ring| + |off| == |s.bufs|
  {
    var all := ring + off;
    forall b | b in ring ensures b < |s.bufs| {
      var m :| 0 <= m < |ring| && ring[m] == b;
      assert RingAt(s.next, s.prev, ring, m);
    }
    forall c, d | 0 <= c < d < |all| ensures all[c] != all[d] {
      if c < |ring| <= d { assert ring[c] in ring && off[d - |ring|] in off; }
    }
    AllBelow(all, |s.bufs|);
  }

  lemma AllBelow(s: seq<nat>, n: nat)
    requires Distinct(s) && (forall b | b in s :: b < n) && forall b: nat | b < n :: b in s
    ensures |s| == n
  {
    CountBelow(s, n);
  }

  lemma GrabListed(s: State, i: nat, k: Key, b: nat, ring: seq<nat>, off: seq<nat>)
    requires Listed(s, ring, off) && i < |s.procs| && b in ring && |ring| > 1
    ensures b < |s.bufs| && Listed(Grab(s, i, k, b), Without(ring, b), off + [b])
  {
    var m := IndexOf(ring, b);
    RingRemove(s.next, s.prev, s.head, ring, m);
    CutKeeps(ring, m);
    var t, r, o := Grab(s, i, k, b), Without(ring, b), off + [b];
    assert s.next[b] == ring[Succ(m, |ring|)] && s.prev[b] == ring[Pred(m, |ring|)];
    forall c | 0 <= c < |o| ensures Ahead(t, r, o, c) {
      if c < |off| {
        assert Ahead(s, ring, off, c) && off[c] !in ring;
        assert o[c + 1..] == off[c + 1..] + [b];
      } else {
        assert s.next[b] in ring && s.next[b] != b;
      }
    }
  }

  lemma GrabSound(s: State, i: nat, k: Key, b: nat, ring: seq<nat>, off: seq<nat>)
    requires SoundAs(s, ring, off) && i < |s.procs| && b in ring
    requires s.procs[i].Looking? || s.procs[i].Scanning?
    ensures b < |s.bufs| && SoundAs(Grab(s, i, k, b), Without(ring, b), off + [b])
  {
    RingLong(s, i, ring, off);
    GrabListed(s, i, k, b, ring, off);
    var t, o := Grab(s, i, k, b), off + [b];
    hide Listed;
    forall c: nat | c < |s.bufs| ensures BufOk(t, o, c) {
      assert BufOk(s, off, c);
      Holders1(s, t, i, c);
    }
    Inside1(s, t, i);
    forall j, c ensures Syncs(t, j, c) <==> Syncs(s, j, c) || (j == i && c == b) {}
    forall c | c in o ensures exists j :: Syncs(t, j, c) {
      if c == b { assert Syncs(t, i, b); } else { var j :| Syncs(s, j, c); assert Syncs(t, j, c); }
    }
    assert b !in off by { Unlisted(s, ring, off, b); }
    assert forall c, d | Shows(t, c, d) :: Shows(s, c, d);
  }

  lemma Unlisted(s: State, ring: seq<nat>, off: seq<nat>, b: nat)
    requires Listed(s, ring, off)
    ensures b in ring ==> b < |s.bufs| && b !in off
    ensures b < |s.bufs| && b !in off ==> b in ring
  {
    if b in ring {
      var m :| 0 <= m < |ring| && ring[m] == b;
      assert RingAt(s.next, s.prev, ring, m);
    }
  }

  lemma SettleListed(s: State, i: nat, k: Key, b: nat, ring: seq<nat>, off: seq<nat>)
    requires Listed(s, ring, off) && i < |s.procs| && b in off
    ensures b < |s.bufs| && Listed(Settle(s, i, k, b), ring + [b], Without(off, b))
  {
    var m := IndexOf(off, b);
    RingInsert(s.next, s.prev, s.head, ring, b);
    CutKeeps(off, m);
    var t, r, o := Settle(s, i, k, b), ring + [b], Without(off, b);
    assert s.prev[s.head] in ring && s.head in ring by {
      assert RingAt(s.next, s.prev, ring, 0);
      assert s.prev[s.head] == ring[Pred(0, |ring|)];
    }
    hide Ring;
    forall c: nat | c < |o| ensures Ahead(t, r, o, c) { SettleAhead(s, t, b, ring, off, c); }
  }

  lemma SettleAhead(s: State, t: State, b: nat, ring: seq<nat>, off: seq<nat>, c: nat)
    requires Distinct(off) && b in off && c < |off| - 1 && |t.next| == |s.next|
    requires forall m: nat | m < |off| :: Ahead(s, ring, off, m)
    requires forall d: nat | d < |s.next| && d !in ring && d != b :: t.next[d] == s.next[d]
    requires forall d | d in off :: d !in ring
    ensures Ahead(t, ring + [b], Without(off, b), c)
  {
    var m, o := IndexOf(off, b), Without(off, b);
    var d := if c < m then c else c + 1;
    assert o[c] == off[d] && Ahead(s, ring, off, d);
    assert off[d] != b && off[d] in off;
    if s.next[off[d]] in off[d + 1..] && s.next[off[d]] != b {
      var e :| d + 1 <= e < |off| && off[e] == s.next[off[d]];
      var e' := if e < m then e else e - 1;
      assert o[e'] == off[e] && c + 1 <= e' < |o|;
    }
  }

  /** Putting a buffer back is sound when nobody else holds it, or when it keeps its block. */
  lemma SettleSound(s: State, i: nat, k: Key, b: nat, ring: seq<nat>, off: seq<nat>)
    requires SoundAs(s, ring, off) && Syncs(s, i, b) && (IsCached(s, k) ==> s.bufs[b].count == 1)
    ensures b in off && SoundAs(Settle(s, i, k, b), ring + [b], Without(off, b))
  {
    SettleListed(s, i, k, b, ring, off);
    CutKeeps(off, IndexOf(off, b));
    var t, o := Settle(s, i, k, b), Without(off, b);
    hide Listed;
    forall c: nat | c < |s.bufs| ensures BufOk(t, o, c) {
      assert BufOk(s, off, c);
      Holders1(s, t, i, c);
    }
    Inside1(s, t, i);
    forall j, c ensures Syncs(t, j, c) <==> Syncs(s, j, c) && j != i {}
    forall c | c in o ensures exists j :: Syncs(t, j, c) {
      var j :| Syncs(s, j, c);
      assert Syncs(t, j, c);
    }
    forall j, c | Syncs(t, j, c) ensures c in o { assert Syncs(s, j, c); }
    assert BufOk(s, off, b);
    forall c, d | Shows(t, c, d) ensures Shows(s, c, d) || (d == b && c == k && !IsCached(s, k)) {}
  }

  // ---------- Steps ----------

  /** Every count is the number of processes that hold the buffer. */
  ghost predicate Counted(s: State) {
    forall b: nat | b < |s.bufs| :: s.bufs[b].count == |Holders(s, b)|
  }

  /** A process that has lost the race puts back, with count 0, a buffer that others hold. */
  predicate PutsBackHeld(s: State, step: Step)
    requires Enabled(s, step)
  {
    (step.Finish? || step.Scan?) && var i, p := step.p, s.procs[step.p];
    if step.Finish? then IsCached(s, p.k) && s.bufs[p.b].count > 1
    else
      var w := Scanned(s, i);
      w.Takes? && !s.bufs[w.b].dirt && IsCached(Grab(s, i, p.k, w.b), p.k) && s.bufs[w.b].count > 0
  }

  /** What a scan takes is on the free list. */
  lemma TakenListed(s: State, i: nat, ring: seq<nat>, off: seq<nat>)
    requires SoundAs(s, ring, off) && i < |s.procs| && (s.procs[i].Looking? || s.procs[i].Scanning?) && Scanned(s, i).Takes?
    ensures Scanned(s, i).b in ring
  {
    var b := Scanned(s, i).b;
    if s.bufs[b].count == 0 {
      if b in off { OffHeld(s, ring, off, b); }
    } else {
      assert ring[0] == b;
    }
  }

  /** Counts, queues and the hash table stay right, unless a buffer that others hold is put back: then a count is wrong. */
  lemma StepSound(s: State, step: Step)
    requires Sound(s) && Enabled(s, step)
    ensures if PutsBackHeld(s, step) then !Counted(Do(s, step)) else Sound(Do(s, step))
  {
    var ring, off :| SoundAs(s, ring, off);
    hide SoundAs;
    if step.Device? {
      DeviceSound(s, step.b, step.locked, step.dirt, ring, off);
    } else if step.Finish? {
      FinishSound(s, step.p, ring, off);
    } else if step.Scan? {
      ScanSound(s, step.p, ring, off);
    } else {
      OtherSound(s, step, ring, off);
    }
  }

  lemma SoundCounted(s: State)
    requires Sound(s)
    ensures Counted(s)
  {
    var ring, off :| SoundAs(s, ring, off);
    forall b: nat | b < |s.bufs| ensures s.bufs[b].count == |Holders(s, b)| { assert BufOk(s, off, b); }
  }

  lemma OtherSound(s: State, step: Step, ring: seq<nat>, off: seq<nat>)
    requires SoundAs(s, ring, off) && Enabled(s, step) && !step.Device? && !step.Finish? && !step.Scan?
    ensures SoundAs(Do(s, step), ring, off)
  {
    Inside1(s, Do(s, step), step.p);
    StepUnlisted(s, Do(s, step), step.p, ring, off);
  }

  lemma FinishSound(s: State, i: nat, ring: seq<nat>, off: seq<nat>)
    requires SoundAs(s, ring, off) && Enabled(s, Finish(i))
    ensures if PutsBackHeld(s, Finish(i)) then !Counted(Do(s, Finish(i))) else Sound(Do(s, Finish(i)))
  {
    var t, b := Do(s, Finish(i)), s.procs[i].b;
    assert Syncs(s, i, b) && BufOk(s, off, b) && i in Holders(s, b);
    hide SoundAs, Syncs;
    if PutsBackHeld(s, Finish(i)) {
      Holders1(s, t, i, b);
      assert t.bufs[b].count == 0 && |Holders(t, b)| > 0;
    } else {
      SettleSound(s, i, s.procs[i].k, b, ring, off);
    }
  }

  /** What becomes of a buffer that a scan takes. */
  lemma TakenState(s: State, i: nat)
    requires Enabled(s, Scan(i)) && Scanned(s, i).Takes?
    ensures var t, b, k := Do(s, Scan(i)), Scanned(s, i).b, s.procs[i].k;
            && |t.bufs| == |s.bufs| && |t.procs| == |s.procs| && t.procs == s.procs[i := t.procs[i]]
            && (forall c: nat | c < |s.bufs| && c != b :: t.bufs[c] == s.bufs[c])
            && (if s.bufs[b].dirt then t.procs[i] == Syncing(k, b) && t.bufs[b].key == s.bufs[b].key
                else if IsCached(Grab(s, i, k, b), k) then t.procs[i] == Looking(k) && t.bufs[b].count == 0
                else t.procs[i] == Holding(k, b) && t.bufs[b].key == k)
  {
    hide IsCached, Walk, Scanned;
  }

  lemma ScanSound(s: State, i: nat, ring: seq<nat>, off: seq<nat>)
    requires SoundAs(s, ring, off) && Enabled(s, Scan(i))
    ensures if PutsBackHeld(s, Scan(i)) then !Counted(Do(s, Scan(i))) else Sound(Do(s, Scan(i)))
  {
    if Scanned(s, i).Takes? {
      TakeSound(s, i, ring, off);
    } else {
      Inside1(s, Do(s, Scan(i)), i);
      hide Walk, Scanned;
      StepUnlisted(s, Do(s, Scan(i)), i, ring, off);
    }
  }

  lemma TakeSound(s: State, i: nat, ring: seq<nat>, off: seq<nat>)
    requires SoundAs(s, ring, off) && Enabled(s, Scan(i)) && Scanned(s, i).Takes?
    ensures if PutsBackHeld(s, Scan(i)) then !Counted(Do(s, Scan(i))) else Sound(Do(s, Scan(i)))
  {
    var t, b, k := Do(s, Scan(i)), Scanned(s, i).b, s.procs[i].k;
    TakenListed(s, i, ring, off);
    GrabSound(s, i, k, b, ring, off);
    assert BufOk(s, off, b);
    var g := Grab(s, i, k, b);
    assert Syncs(g, i, b) && !Holds(s.procs[i], b) && g.bufs[b].count == s.bufs[b].count + 1;
    hide SoundAs, Syncs, Scanned, Grab, Settle, IsCached, BufOk;
    if PutsBackHeld(s, Scan(i)) {
      TakenState(s, i);
      Holders1(s, t, i, b);
      assert t.bufs[b].count == 0 && |Holders(t, b)| > 0;
    } else if !s.bufs[b].dirt {
      SettleSound(g, i, k, b, Without(ring, b), off + [b]);
    }
  }

  // ---------- Buffers in use ----------

  /** Whoever holds a buffer, or waits for it, finds its block there, in the queues, and is counted. */
  ghost predicate HoldOk(s: State, i: nat)
    requires i < |s.procs|
  {
    var p := s.procs[i];
    p.Waiting? || p.Holding? ==>
      p.b < |s.bufs| && s.bufs[p.b].key == p.k && s.bufs[p.b].count > 0 && forall j :: !Syncs(s, j, p.b)
  }

  ghost predicate Kept(s: State) {
    forall i: nat | i < |s.procs| :: HoldOk(s, i)
  }

  /** A scan comes round to the head, and takes it although it is in use: for another block, or to write it out first. */
  predicate Robs(s: State, step: Step)
    requires Enabled(s, step)
  {
    step.Scan? && var w := Scanned(s, step.p);
    w.Takes? && s.bufs[w.b].count > 0 && (s.bufs[w.b].dirt || s.bufs[w.b].key != s.procs[step.p].k)
  }

  lemma RobbedHead(s: State, step: Step)
    requires Enabled(s, step) && Robs(s, step)
    ensures Scanned(s, step.p) == Takes(s.head) && s.bufs[s.head].count > 0
  {
  }

  /** Buffers in use stay what they are in a step, exactly if it robs nobody. */
  lemma StepKept(s: State, step: Step)
    requires Sound(s) && Kept(s) && Enabled(s, step)
    ensures Robs(s, step) <==> !Kept(Do(s, step))
    ensures !Robs(s, step) ==> !PutsBackHeld(s, step) && Sound(Do(s, step))
  {
    StepSound(s, step);
    var ring, off :| SoundAs(s, ring, off);
    if Robs(s, step) {
      RobbedHolder(s, step.p, ring, off);
    } else {
      NoneLeft(s, step, ring, off);
      var ring', off' :| SoundAs(Do(s, step), ring', off');
      forall j: nat | j < |s.procs| ensures HoldOk(Do(s, step), j) {
        assert HoldOk(s, j);
        HolderKept(s, step, j, ring, off);
        HolderCounts(Do(s, step), j, ring', off');
      }
    }
  }

  /** A step that robs nobody puts back no buffer in use. */
  lemma NoneLeft(s: State, step: Step, ring: seq<nat>, off: seq<nat>)
    requires SoundAs(s, ring, off) && Kept(s) && Enabled(s, step) && !Robs(s, step)
    ensures !PutsBackHeld(s, step)
  {
    if step.Finish? {
      var i, b := step.p, s.procs[step.p].b;
      assert Syncs(s, i, b) && BufOk(s, off, b);
      OneSyncer(s, i, b, ring, off);
    } else if step.Scan? && Scanned(s, step.p).Takes? {
      var i, b, k := step.p, Scanned(s, step.p).b, s.procs[step.p].k;
      TakenListed(s, i, ring, off);
      Unlisted(s, ring, off, b);
      assert BufOk(s, off, b);
      var g := Grab(s, i, k, b);
      if c: nat :| Shows(g, k, c) {
        assert Shows(s, k, c) && c != b && BufOk(s, off, c);
        assert s.bufs[b].key == k ==> Shows(s, k, b);
      }
    }
  }

  /** Nobody else holds a buffer that was taken out. */
  lemma OneSyncer(s: State, i: nat, b: nat, ring: seq<nat>, off: seq<nat>)
    requires SoundAs(s, ring, off) && Kept(s) && Syncs(s, i, b)
    ensures Holders(s, b) == {i}
  {
    forall j | j in Holders(s, b) ensures j == i {
      assert HoldOk(s, j) && (s.procs[j].Syncing? ==> Syncs(s, j, b));
    }
    assert i in Holders(s, b);
  }

  lemma HolderCounts(t: State, j: nat, ring: seq<nat>, off: seq<nat>)
    requires SoundAs(t, ring, off) && j < |t.procs|
    ensures t.procs[j].Waiting? || t.procs[j].Holding? ==> t.procs[j].b < |t.bufs| && t.bufs[t.procs[j].b].count > 0
  {
    if t.procs[j].Waiting? || t.procs[j].Holding? {
      assert BufOk(t, off, t.procs[j].b) && j in Holders(t, t.procs[j].b);
    }
  }

  /** Process `j` finds its block where it holds it. */
  ghost predicate AtHome(t: State, j: nat)
    requires j < |t.procs|
  {
    var p := t.procs[j];
    p.Waiting? || p.Holding? ==> p.b < |t.bufs| && t.bufs[p.b].key == p.k && forall l :: !Syncs(t, l, p.b)
  }

  /** In a step that robs nobody process `j` keeps what it holds, or gets what it wants. */
  lemma HolderKept(s: State, step: Step, j: nat, ring: seq<nat>, off: seq<nat>)
    requires SoundAs(s, ring, off) && Kept(s) && Enabled(s, step) && !Robs(s, step) && !PutsBackHeld(s, step) && j < |s.procs|
    ensures j < |Do(s, step).procs| && AtHome(Do(s, step), j)
  {
    assert HoldOk(s, j);
    if step.Finish? {
      FinishKept(s, step.p, j, ring, off);
    } else if step.Scan? {
      ScanKept(s, step.p, j, ring, off);
    } else {
      var t := Do(s, step);
      if step.Find? { assert BufOk(s, off, step.b); }
      forall l, c | Syncs(t, l, c) ensures Syncs(s, l, c) {}
    }
  }

  lemma FinishKept(s: State, i: nat, j: nat, ring: seq<nat>, off: seq<nat>)
    requires SoundAs(s, ring, off) && j < |s.procs| && HoldOk(s, j) && Enabled(s, Finish(i))
    ensures j < |Do(s, Finish(i)).procs| && AtHome(Do(s, Finish(i)), j)
  {
    var t, b := Do(s, Finish(i)), s.procs[i].b;
    assert Syncs(s, i, b);
    forall l, c | Syncs(t, l, c) ensures Syncs(s, l, c) && l != i {}
  }

  lemma ScanKept(s: State, i: nat, j: nat, ring: seq<nat>, off: seq<nat>)
    requires SoundAs(s, ring, off) && j < |s.procs| && HoldOk(s, j) && Enabled(s, Scan(i)) && !Robs(s, Scan(i))
    requires !PutsBackHeld(s, Scan(i))
    ensures j < |Do(s, Scan(i)).procs| && AtHome(Do(s, Scan(i)), j)
  {
    var w := Scanned(s, i);
    if w.Sleeps? {
      var t := Do(s, Scan(i));
      forall l, c | Syncs(t, l, c) ensures Syncs(s, l, c) {}
    } else {
      TakenState(s, i);
      TakenListed(s, i, ring, off);
      Unlisted(s, ring, off, w.b);
      assert forall l :: !Syncs(s, l, w.b);
      if j != i && Holds(s.procs[j], w.b) { HolderOf(s, j, w.b, ring, off); }
      hide SoundAs, Walk, Scanned, IsCached, Do, Grab, Settle, Shape;
      assert forall l, c :: Syncs(Do(s, Scan(i)), l, c) ==> Syncs(s, l, c) || (l == i && c == w.b && s.bufs[w.b].dirt);
    }
  }

  lemma HolderOf(s: State, j: nat, b: nat, ring: seq<nat>, off: seq<nat>)
    requires SoundAs(s, ring, off) && j < |s.procs| && b < |s.bufs| && Holds(s.procs[j], b)
    ensures s.bufs[b].count > 0
  {
    assert BufOk(s, off, b) && j in Holders(s, b);
  }

  lemma RobbedHolder(s: State, i: nat, ring: seq<nat>, off: seq<nat>)
    requires SoundAs(s, ring, off) && Kept(s) && Enabled(s, Scan(i)) && Robs(s, Scan(i))
    ensures !Kept(Do(s, Scan(i)))
  {
    var b, t := Scanned(s, i).b, Do(s, Scan(i));
    TakenListed(s, i, ring, off);
    Unlisted(s, ring, off, b);
    assert BufOk(s, off, b);
    assert |Holders(s, b)| != 0;
    var j :| j in Holders(s, b);
    assert HoldOk(s, j) && (s.procs[j].Syncing? ==> Syncs(s, j, b));
    assert t.procs[j] == s.procs[j];
    if s.bufs[b].dirt { assert Syncs(t, i, b); }
    assert !HoldOk(t, j);
  }

  // ---------- Runs ----------

  ghost predicate Runs(s: State, steps: seq<Step>, t: State)
    decreases |steps|
  {
    if steps == [] then t == s
    else Enabled(s, steps[0]) && Runs(Do(s, steps[0]), steps[1..], t)
  }

  /** In every state of a run buffers in use are what they were. */
  ghost predicate AlwaysKept(s: State, steps: seq<Step>, t: State)
    requires Runs(s, steps, t)
    decreases |steps|
  {
    Kept(s) && (steps == [] || AlwaysKept(Do(s, steps[0]), steps[1..], t))
  }

  ghost predicate AlwaysCounted(s: State, steps: seq<Step>, t: State)
    requires Runs(s, steps, t)
    decreases |steps|
  {
    Counted(s) && (steps == [] || AlwaysCounted(Do(s, steps[0]), steps[1..], t))
  }

  ghost predicate EverRobs(s: State, steps: seq<Step>, t: State)
    requires Runs(s, steps, t)
    decreases |steps|
  {
    steps != [] && (Robs(s, steps[0]) || EverRobs(Do(s, steps[0]), steps[1..], t))
  }

  ghost predicate EverPutsBackHeld(s: State, steps: seq<Step>, t: State)
    requires Runs(s, steps, t)
    decreases |steps|
  {
    steps != [] && (PutsBackHeld(s, steps[0]) || EverPutsBackHeld(Do(s, steps[0]), steps[1..], t))
  }

  lemma {:induction false} RunKept(s: State, steps: seq<Step>, t: State)
    requires Sound(s) && Kept(s) && Runs(s, steps, t)
    ensures AlwaysKept(s, steps, t) <==> !EverRobs(s, steps, t)
    ensures !EverRobs(s, steps, t) ==> Sound(t) && Kept(t) && !EverPutsBackHeld(s, steps, t)
    decreases |steps|
  {
    if steps != [] {
      hide Sound, Kept, Robs, PutsBackHeld, Enabled, Do;
      StepKept(s, steps[0]);
      if !Robs(s, steps[0]) { RunKept(Do(s, steps[0]), steps[1..], t); } else { NotAlways(Do(s, steps[0]), steps[1..], t); }
    }
  }

  lemma NotAlways(s: State, steps: seq<Step>, t: State)
    requires Runs(s, steps, t) && !Kept(s)
    ensures !AlwaysKept(s, steps, t)
  {
  }

  lemma {:induction false} RunSound(s: State, steps: seq<Step>, t: State)
    requires Sound(s) && Runs(s, steps, t)
    ensures AlwaysCounted(s, steps, t) <==> !EverPutsBackHeld(s, steps, t)
    ensures !EverPutsBackHeld(s, steps, t) ==> Sound(t)
    decreases |steps|
  {
    SoundCounted(s);
    if steps != [] {
      hide Sound, Counted, PutsBackHeld, Enabled, Do;
      StepSound(s, steps[0]);
      if !PutsBackHeld(s, steps[0]) { RunSound(Do(s, steps[0]), steps[1..], t); }
      else { NotCounted(Do(s, steps[0]), steps[1..], t); }
    }
  }

  lemma NotCounted(s: State, steps: seq<Step>, t: State)
    requires Runs(s, steps, t) && !Counted(s)
    ensures !AlwaysCounted(s, steps, t)
  {
  }

  lemma BootKept(s: State)
    requires Boot(s)
    ensures Sound(s) && Kept(s)
  {
    BootSound(s);
  }

  /** However the processes interleave, buffers in use stay what they are in every state of the run, if and only if no scan
      comes round to a head that is in use and takes it for another block, or to write it out. */
  lemma KeptIff(s: State, steps: seq<Step>, t: State)
    requires Boot(s) && Runs(s, steps, t)
    ensures AlwaysKept(s, steps, t) <==> !EverRobs(s, steps, t)
  {
    BootKept(s);
    RunKept(s, steps, t);
  }

  /** Counts are exact in every state of the run, if and only if no process that lost the race puts back a buffer that others
      hold. */
  lemma CountedIff(s: State, steps: seq<Step>, t: State)
    requires Boot(s) && Runs(s, steps, t)
    ensures AlwaysCounted(s, steps, t) <==> !EverPutsBackHeld(s, steps, t)
  {
    BootSound(s);
    RunSound(s, steps, t);
  }

  /** What survives robbery. As long as no such buffer is put back: no block has two hashed buffers; the free list is a ring
      of exactly the buffers that no process has taken out; counts are exact; and releasing a buffer is no panic. */
  lemma Survives(s: State, steps: seq<Step>, t: State)
    requires Boot(s) && Runs(s, steps, t) && !EverPutsBackHeld(s, steps, t)
    ensures forall k, b, c | Shows(t, k, b) && Shows(t, k, c) :: b == c
    ensures exists ring: seq<nat> ::
              && Ring(t.next, t.prev, t.head, ring)
              && forall b: nat | b < |t.bufs| :: b in ring <==> forall i :: !Syncs(t, i, b)
    ensures forall b: nat | b < |t.bufs| :: t.bufs[b].count == |Holders(t, b)|
    ensures forall i: nat | i < |t.procs| && (t.procs[i].Waiting? || t.procs[i].Holding?) ::
              t.procs[i].b < |t.bufs| && t.bufs[t.procs[i].b].count > 0
  {
    BootSound(s);
    RunSound(s, steps, t);
    SoundCounted(t);
    var ring, off :| SoundAs(t, ring, off);
    forall i: nat | i < |t.procs| && (t.procs[i].Waiting? || t.procs[i].Holding?)
      ensures t.procs[i].b < |t.bufs| && t.bufs[t.procs[i].b].count > 0
    {
      HolderCounts(t, i, ring, off);
    }
    RingIs(t, ring, off);
  }

  lemma RingIs(t: State, ring: seq<nat>, off: seq<nat>)
    requires SoundAs(t, ring, off)
    ensures Ring(t.next, t.prev, t.head, ring)
    ensures forall b: nat | b < |t.bufs| :: b in ring <==> forall i :: !Syncs(t, i, b)
  {
  }

  /** Where no scan robs, moreover: two processes that hold the same block hold the same buffer, which is the one that
      find_buffer finds. */
  lemma RacesLost(s: State, steps: seq<Step>, t: State)
    requires Boot(s) && Runs(s, steps, t) && !EverRobs(s, steps, t)
    ensures !EverPutsBackHeld(s, steps, t)
    ensures forall i: nat, j: nat | i < |t.procs| && j < |t.procs| && t.procs[i].Holding? && t.procs[j].Holding?
                                    && t.procs[i].k == t.procs[j].k && t.procs[i].k.dev != 0 ::
              t.procs[i].b == t.procs[j].b && Shows(t, t.procs[i].k, t.procs[i].b)
  {
    BootKept(s);
    RunKept(s, steps, t);
    var ring, off :| SoundAs(t, ring, off);
    forall i: nat | i < |t.procs| && t.procs[i].Holding? && t.procs[i].k.dev != 0
      ensures Shows(t, t.procs[i].k, t.procs[i].b)
    {
      HeldShows(t, i, ring, off);
    }
  }

  lemma HeldShows(t: State, i: nat, ring: seq<nat>, off: seq<nat>)
    requires SoundAs(t, ring, off) && i < |t.procs| && HoldOk(t, i) && t.procs[i].Holding? && t.procs[i].k.dev != 0
    ensures Shows(t, t.procs[i].k, t.procs[i].b)
  {
    assert BufOk(t, off, t.procs[i].b);
  }

  /** Where no scan robs, whoever waits for a buffer in get_hash_table still finds the block there: the re-check after the
      wait never fails. */
  lemma WaitedFor(s: State, steps: seq<Step>, t: State, i: nat)
    requires Boot(s) && Runs(s, steps, t) && !EverRobs(s, steps, t)
    requires i < |t.procs| && t.procs[i].Waiting? && Enabled(t, Awake(i))
    ensures Do(t, Awake(i)).procs[i] == Holding(t.procs[i].k, t.procs[i].b)
  {
    BootKept(s);
    RunKept(s, steps, t);
    assert HoldOk(t, i);
  }

  /** A process that loses the race puts its buffer back and next finds the buffer of the winner. */
  lemma LoserFinds(s: State, i: nat)
    requires Sound(s) && Enabled(s, Finish(i)) && IsCached(s, s.procs[i].k)
    ensures var t, k := Do(s, Finish(i)), s.procs[i].k;
            t.procs[i] == Looking(k) && exists b: nat :: Enabled(t, Find(i, b))
  {
    var t, k := Do(s, Finish(i)), s.procs[i].k;
    var ring, off :| SoundAs(s, ring, off);
    var b: nat :| b < |s.bufs| && Shows(s, k, b);
    assert Syncs(s, i, s.procs[i].b) && BufOk(s, off, b);
    assert Shows(t, k, b) && Enabled(t, Find(i, b));
  }

  // ---------- A scan comes to an end ----------

  lemma {:induction false} WalkRing(s: State, ring: seq<nat>, off: seq<nat>, m: nat, n: nat)
    requires SoundAs(s, ring, off) && m < |ring| && n >= |ring| - m
    ensures ring[m] < |s.bufs| && !Walk(s, ring[m], n).Endless?
    decreases n
  {
    assert RingAt(s.next, s.prev, ring, m);
    if m + 1 < |ring| { WalkRing(s, ring, off, m + 1, n - 1); }
  }

  lemma {:induction false} WalkOff(s: State, ring: seq<nat>, off: seq<nat>, m: nat, n: nat)
    requires SoundAs(s, ring, off) && m < |off| && n >= |ring| + |off| - m
    ensures off[m] < |s.bufs| && !Walk(s, off[m], n).Endless?
    decreases n
  {
    var b := off[m];
    assert Ahead(s, ring, off, m) && b in off;
    OffHeld(s, ring, off, b);
    if s.next[b] in ring {
      var l :| 0 <= l < |ring| && ring[l] == s.next[b];
      WalkRing(s, ring, off, l, n - 1);
    } else {
      var l :| 0 <= l < |off[m + 1..]| && off[m + 1..][l] == s.next[b];
      WalkOff(s, ring, off, m + 1 + l, n - 1);
    }
  }

  /** Even a scan that goes on from a buffer that is in no queue any more comes back to the free list, and to an end. */
  lemma ScanEnds(s: State, i: nat)
    requires Sound(s) && i < |s.procs| && (s.procs[i].Looking? || s.procs[i].Scanning?)
    ensures Shape(s) && !Scanned(s, i).Endless?
  {
    var ring, off :| SoundAs(s, ring, off);
    RingAll(s, ring, off);
    var b := if s.procs[i].Looking? then s.head else s.procs[i].b;
    if b in off {
      var m :| 0 <= m < |off| && off[m] == b;
      WalkOff(s, ring, off, m, |s.bufs|);
    } else {
      assert b == s.head ==> ring[0] == b;
      Unlisted(s, ring, off, b);
      var m :| 0 <= m < |ring| && ring[m] == b;
      WalkRing(s, ring, off, m, |s.bufs|);
    }
  }

  // ---------- A robbery ----------

  ghost predicate Reaches(s: State, t: State) {
    exists steps :: Runs(s, steps, t)
  }

  lemma ReachStep(s: State, step: Step)
    requires Enabled(s, step)
    ensures Reaches(s, Do(s, step))
  {
    assert [step][1..] == [];
    assert Runs(s, [step], Do(s, step));
  }

  lemma ReachTrans(s: State, t: State, u: State)
    requires Reaches(s, t) && Reaches(t, u)
    ensures Reaches(s, u)
  {
    var a :| Runs(s, a, t);
    var b :| Runs(t, b, u);
    RunsBoth(s, a, t, b, u);
  }

  lemma {:induction false} RunsBoth(s: State, a: seq<Step>, t: State, b: seq<Step>, u: State)
    requires Runs(s, a, t) && Runs(t, b, u)
    ensures Runs(s, a + b, u)
    decreases |a|
  {
    hide Enabled, Do;
    if a == [] {
      assert a + b == b;
    } else {
      RunsBoth(Do(s, a[0]), a[1..], t, b, u);
      assert (a + b)[1..] == a[1..] + b;
    }
  }

  /** A machine with four buffers and three tasks, one of which may hold buffers besides. */
  function Machine(head: nat, bufs: seq<Buf>, procs: seq<Proc>): State {
    State(bufs, [1, 2, 3, 0], [3, 0, 1, 2], head, procs, 3)
  }

  const A := Key(1, 1)
  const B := Key(1, 2)
  const C := Key(1, 3)
  const D := Key(1, 4)
  const E := Key(1, 5)

  function Empty(): Buf { Buf(Key(0, 0), 0, false, false, false) }
  function Cached(k: Key, count: nat): Buf { Buf(k, count, true, false, false) }

  predicate IsMachine(s: State) {
    |s.bufs| == 4 && |s.procs| == 4 && s.head < 4 && s == Machine(s.head, s.bufs, s.procs) && Shape(s)
  }

  /** A scan that stops at the head gives its buffer to the block, and moves it to the end. */
  lemma TakeHead(s: State, p: nat, k: Key)
    requires IsMachine(s) && p < 4 && k.dev != 0 && !IsCached(s, k) && !s.bufs[s.head].dirt
    requires s.procs[p] == Looking(k) || (s.procs[p].Scanning? && s.procs[p].k == k && !s.bufs[s.procs[p].b].locked)
    requires Scanned(s, p) == Takes(s.head)
    ensures Enabled(s, Scan(p))
    ensures var f := s.bufs[s.head];
            Do(s, Scan(p)) == Machine(s.next[s.head], s.bufs[s.head := f.(key := k, count := f.count + 1, hashed := true)],
                                      s.procs[p := Holding(k, s.head)])
  {
    var g := Grab(s, p, k, s.head);
    NotCached(s, g, k);
    GrabHead(s, p, k);
    SettleHead(s, g, p, k);
    hide IsCached, Walk, Scanned, Grab, Settle, Shape;
  }

  lemma GrabHead(s: State, p: nat, k: Key)
    requires IsMachine(s) && p < 4
    ensures var f, h, g := s.bufs[s.head], s.head, Grab(s, p, k, s.head);
            && g.bufs == s.bufs[h := f.(count := f.count + 1, hashed := false)] && g.procs == s.procs[p := Syncing(k, h)]
            && g.next == s.next[s.prev[h] := s.next[h]] && g.prev == s.prev[s.next[h] := s.prev[h]]
            && g.head == s.next[h] && g.tasks == s.tasks
  {
  }

  lemma SettleHead(s: State, g: State, p: nat, k: Key)
    requires IsMachine(s) && Shape(g) && p < 4 && k.dev != 0 && !IsCached(g, k) && !s.bufs[s.head].dirt
    requires var f, h := s.bufs[s.head], s.head;
             && g.bufs == s.bufs[h := f.(count := f.count + 1, hashed := false)] && g.procs == s.procs[p := Syncing(k, h)]
             && g.next == s.next[s.prev[h] := s.next[h]] && g.prev == s.prev[s.next[h] := s.prev[h]]
             && g.head == s.next[h] && g.tasks == s.tasks
    ensures var f := s.bufs[s.head];
            Settle(g, p, k, s.head)
            == Machine(s.next[s.head], s.bufs[s.head := f.(key := k, count := f.count + 1, hashed := true)],
                       s.procs[p := Holding(k, s.head)])
  {
    Links(s.head);
    hide IsCached, Shape;
  }

  lemma TakeReaches(s: State, p: nat, k: Key, t: State)
    requires IsMachine(s) && p < 4 && k.dev != 0 && !IsCached(s, k) && !s.bufs[s.head].dirt
    requires s.procs[p] == Looking(k) || (s.procs[p].Scanning? && s.procs[p].k == k && !s.bufs[s.procs[p].b].locked)
    requires Scanned(s, p) == Takes(s.head)
    requires var f := s.bufs[s.head];
             t == Machine(s.next[s.head], s.bufs[s.head := f.(key := k, count := f.count + 1, hashed := true)],
                          s.procs[p := Holding(k, s.head)])
    ensures Reaches(s, t)
  {
    TakeHead(s, p, k);
    hide Reaches, Do, Enabled, Scanned, IsCached, IsMachine, Machine;
    ReachStep(s, Scan(p));
  }

  lemma MachineFacts(s: State)
    requires IsMachine(s)
    ensures |s.bufs| == |s.procs| == |s.next| == 4 && s.head < 4 && s == Machine(s.head, s.bufs, s.procs)
  {
  }

  lemma Calls(s: State, p: nat, k: Key)
    requires IsMachine(s) && p < 4 && s.procs[p].Idle? && |Inside(s)| < 3 && !IsCached(s, k) && s.bufs[s.head].count == 0
    ensures var u := Machine(s.head, s.bufs, s.procs[p := Looking(k)]);
            && IsMachine(u) && Reaches(s, u) && !IsCached(u, k)
            && Scanned(u, p) == if s.bufs[s.head].locked then Sleeps(s.head) else Takes(s.head)
  {
    ReachStep(s, Call(p, k));
    NotCached(s, Machine(s.head, s.bufs, s.procs[p := Looking(k)]), k);
    hide Reaches, IsCached, Inside;
  }

  /** getblk, not sleeping, takes the first buffer of the list, which nobody has. */
  lemma Miss(s: State, p: nat, k: Key, t: State)
    requires IsMachine(s) && p < 4 && s.procs[p].Idle? && |Inside(s)| < 3 && k.dev != 0 && !IsCached(s, k)
    requires var f := s.bufs[s.head]; f.count == 0 && !f.locked && !f.dirt
    requires t == Machine(s.next[s.head], s.bufs[s.head := Cached(k, 1)], s.procs[p := Holding(k, s.head)])
    ensures Reaches(s, t)
  {
    hide IsCached, Scanned, Reaches, Inside, IsMachine, Shape;
    MachineFacts(s);
    Calls(s, p, k);
    var u := Machine(s.head, s.bufs, s.procs[p := Looking(k)]);
    assert u.procs[p := Holding(k, s.head)] == s.procs[p := Holding(k, s.head)];
    TakeReaches(u, p, k, t);
    ReachTrans(s, u, t);
  }

  /** getblk, sleeping at the first buffer of the list. */
  lemma Sleep(s: State, p: nat, k: Key)
    requires IsMachine(s) && p < 4 && s.procs[p].Idle? && |Inside(s)| < 3 && !IsCached(s, k)
    requires s.bufs[s.head].count == 0 && s.bufs[s.head].locked
    ensures Reaches(s, Machine(s.head, s.bufs, s.procs[p := Scanning(k, s.head)]))
  {
    Calls(s, p, k);
    var u := Machine(s.head, s.bufs, s.procs[p := Looking(k)]);
    hide IsCached, Scanned, Reaches, Inside;
    ReachStep(u, Scan(p));
    assert Do(u, Scan(p)) == Machine(s.head, s.bufs, s.procs[p := Scanning(k, s.head)]);
    ReachTrans(s, u, Do(u, Scan(p)));
  }

  lemma Leave(s: State, p: nat)
    requires IsMachine(s) && p < 4 && s.procs[p].Holding? && !s.bufs[s.procs[p].b].locked && s.bufs[s.procs[p].b].count > 0
    ensures var b := s.procs[p].b;
            Reaches(s, Machine(s.head, s.bufs[b := s.bufs[b].(count := s.bufs[b].count - 1)], s.procs[p := Idle]))
  {
    ReachStep(s, Release(p));
  }

  lemma NotCached(s: State, t: State, k: Key)
    requires !IsCached(s, k) && |t.bufs| == |s.bufs|
    requires forall b: nat | b < |s.bufs| && t.bufs[b].hashed :: s.bufs[b].hashed && s.bufs[b].key == t.bufs[b].key
    ensures !IsCached(t, k)
  {
    assert forall b: nat | b < |s.bufs| :: Shows(t, k, b) ==> Shows(s, k, b);
  }

  /** Taking the head out and putting it at the end turns the ring by one. */
  lemma Links(h: nat)
    requires h < 4
    ensures var next, prev: seq<nat> := [1, 2, 3, 0], [3, 0, 1, 2];
            var n, p := next[h], prev[h];
            var next1, prev1 := next[p := n], prev[n := p];
            && next1[h := n][prev1[n] := h] == next && prev1[h := prev1[n]][n := h] == prev
  {
  }

  function Bufs(a: Buf, b: Buf, c: Buf, d: Buf): seq<Buf> { [a, b, c, d] }
  function Procs(p: Proc, q: Proc, r: Proc, t: Proc): seq<Proc> { [p, q, r, t] }

  function Start(): State { Machine(0, Bufs(Empty(), Empty(), Empty(), Empty()), Procs(Idle, Idle, Idle, Idle)) }

  function OneHeld(): State {
    Machine(1, Bufs(Cached(A, 1), Empty(), Empty(), Empty()), Procs(Holding(A, 0), Idle, Idle, Idle))
  }

  function TwoUsed(): State {
    Machine(2, Bufs(Cached(A, 1), Cached(B, 0), Empty(), Empty()), Procs(Holding(A, 0), Idle, Idle, Idle))
  }

  /** Process 0 has block A in buffer 0, which comes next on the list after buffer 3. */
  function Prepared(): State {
    Machine(3, Bufs(Cached(A, 1), Cached(B, 0), Cached(C, 0), Empty()), Procs(Holding(A, 0), Idle, Idle, Idle))
  }

  lemma Booted()
    ensures Boot(Start())
  {
  }

  lemma Started()
    ensures Reaches(Start(), OneHeld())
  {
    var s := Start();
    assert Inside(s) == {} && !IsCached(s, A);
    hide Reaches, IsCached, Inside;
    Miss(s, 0, A, OneHeld());
  }

  /** A process gets a block and gives it back. */
  lemma Visit(s: State, p: nat, k: Key)
    requires IsMachine(s) && p < 4 && s.procs[p].Idle? && |Inside(s)| < 3 && k.dev != 0 && !IsCached(s, k)
    requires s.bufs[s.head] == Empty()
    ensures Reaches(s, Machine(s.next[s.head], s.bufs[s.head := Cached(k, 0)], s.procs))
  {
    var t := Machine(s.next[s.head], s.bufs[s.head := Cached(k, 1)], s.procs[p := Holding(k, s.head)]);
    Miss(s, p, k, t);
    hide Reaches, IsCached, Inside;
    Leave(t, p);
    var u := Machine(t.head, t.bufs[s.head := t.bufs[s.head].(count := t.bufs[s.head].count - 1)], t.procs[p := Idle]);
    assert u == Machine(s.next[s.head], s.bufs[s.head := Cached(k, 0)], s.procs);
    ReachTrans(s, t, u);
  }

  lemma Preparation()
    ensures Boot(Start()) && Reaches(Start(), Prepared())
  {
    Booted();
    Started();
    Visited1();
    Visited2();
    hide *;
    ReachTrans(Start(), OneHeld(), TwoUsed());
    ReachTrans(Start(), TwoUsed(), Prepared());
  }

  lemma Visited1()
    ensures Reaches(OneHeld(), TwoUsed())
  {
    var s := OneHeld();
    assert Inside(s) == {};
    Visit(s, 3, B);
    hide Reaches;
    assert Machine(s.next[s.head], s.bufs[s.head := Cached(B, 0)], s.procs) == TwoUsed();
  }

  lemma Visited2()
    ensures Reaches(TwoUsed(), Prepared())
  {
    var s := TwoUsed();
    assert Inside(s) == {};
    Visit(s, 3, C);
    hide Reaches;
    assert Machine(s.next[s.head], s.bufs[s.head := Cached(C, 0)], s.procs) == Prepared();
  }

  function Locked(p: Proc, q: Proc): State {
    Machine(3, Bufs(Cached(A, 1), Cached(B, 0), Cached(C, 0), Empty().(locked := true)), Procs(Holding(A, 0), p, q, Idle))
  }

  function Unlocked(k: Key): State {
    Machine(3, Bufs(Cached(A, 1), Cached(B, 0), Cached(C, 0), Empty()),
            Procs(Holding(A, 0), Scanning(D, 3), Scanning(k, 3), Idle))
  }

  /** Processes 1 and 2 have slept on buffer 3, the head; process 1 has taken it, and process 2 wants block `k`. */
  function Overtaken(k: Key): State {
    Machine(0, Bufs(Cached(A, 1), Cached(B, 0), Cached(C, 0), Cached(D, 1)),
            Procs(Holding(A, 0), Holding(D, 3), Scanning(k, 3), Idle))
  }

  lemma Overtaking(k: Key)
    requires k == D || k == E
    ensures Reaches(Prepared(), Overtaken(k))
  {
    Lock();
    Sleep1();
    Sleep2(k);
    Unlock(k);
    Overtake(k);
    hide *;
    ReachTrans(Prepared(), Locked(Idle, Idle), Locked(Scanning(D, 3), Idle));
    ReachTrans(Prepared(), Locked(Scanning(D, 3), Idle), Locked(Scanning(D, 3), Scanning(k, 3)));
    ReachTrans(Prepared(), Locked(Scanning(D, 3), Scanning(k, 3)), Unlocked(k));
    ReachTrans(Prepared(), Unlocked(k), Overtaken(k));
  }

  lemma Lock()
    ensures Reaches(Prepared(), Locked(Idle, Idle))
  {
    ReachStep(Prepared(), Device(3, true, false));
    hide Reaches;
    assert Do(Prepared(), Device(3, true, false)) == Locked(Idle, Idle);
  }

  lemma Sleep1()
    ensures Reaches(Locked(Idle, Idle), Locked(Scanning(D, 3), Idle))
  {
    var s := Locked(Idle, Idle);
    assert Inside(s) == {};
    Sleep(s, 1, D);
    hide Reaches;
    assert Machine(s.head, s.bufs, s.procs[1 := Scanning(D, s.head)]) == Locked(Scanning(D, 3), Idle);
  }

  lemma Sleep2(k: Key)
    requires k == D || k == E
    ensures Reaches(Locked(Scanning(D, 3), Idle), Locked(Scanning(D, 3), Scanning(k, 3)))
  {
    var s := Locked(Scanning(D, 3), Idle);
    assert Inside(s) == {1};
    Sleep(s, 2, k);
    hide Reaches;
    assert Machine(s.head, s.bufs, s.procs[2 := Scanning(k, s.head)]) == Locked(Scanning(D, 3), Scanning(k, 3));
  }

  lemma Unlock(k: Key)
    ensures Reaches(Locked(Scanning(D, 3), Scanning(k, 3)), Unlocked(k))
  {
    var s := Locked(Scanning(D, 3), Scanning(k, 3));
    ReachStep(s, Device(3, false, false));
    hide Reaches;
    assert Do(s, Device(3, false, false)) == Unlocked(k);
  }

  lemma Overtake(k: Key)
    requires k == D || k == E
    ensures Reaches(Unlocked(k), Overtaken(k))
  {
    var s := Unlocked(k);
    OvertakeReady(k);
    hide Scanned, Reaches, IsCached;
    TakeReaches(s, 1, D, Overtaken(k));
  }

  lemma OvertakeReady(k: Key)
    ensures IsMachine(Unlocked(k)) && Scanned(Unlocked(k), 1) == Takes(3) && !IsCached(Unlocked(k), D)
  {
  }

  lemma Robbery(k: Key)
    requires k == D || k == E
    ensures Enabled(Overtaken(k), Scan(2)) && Robs(Overtaken(k), Scan(2)) && Scanned(Overtaken(k), 2) == Takes(0)
  {
  }

  /** Buffer 0 now stands for block E, and process 0 does not know. */
  function Robbed(): State {
    Machine(1, Bufs(Cached(E, 2), Cached(B, 0), Cached(C, 0), Cached(D, 1)),
            Procs(Holding(A, 0), Holding(D, 3), Holding(E, 0), Idle))
  }

  lemma Robbing()
    ensures Reaches(Overtaken(E), Robbed())
  {
    var s := Overtaken(E);
    RobReady();
    hide Scanned, Reaches, IsCached;
    TakeReaches(s, 2, E, Robbed());
  }

  lemma RobReady()
    ensures IsMachine(Overtaken(E)) && Scanned(Overtaken(E), 2) == Takes(0) && !IsCached(Overtaken(E), E)
  {
  }

  function Doubled(): State {
    Machine(2, Bufs(Cached(E, 2), Cached(A, 1), Cached(C, 0), Cached(D, 1)),
            Procs(Holding(A, 0), Holding(D, 3), Holding(E, 0), Holding(A, 1)))
  }

  lemma Doubling()
    ensures Reaches(Robbed(), Doubled())
  {
    var s := Robbed();
    assert Inside(s) == {};
    hide Reaches;
    Miss(s, 3, A, Doubled());
  }

  /** Process 2 goes on from buffer 3, comes round to the head, and takes buffer 0 although process 0 has it and others are
      free. A later getblk for block A finds no buffer: processes 0 and 3 have the same block in different buffers. */
  lemma TwoHolders()
    ensures Boot(Start()) && Reaches(Start(), Overtaken(E)) && Reaches(Overtaken(E), Doubled())
    ensures Enabled(Overtaken(E), Scan(2)) && Robs(Overtaken(E), Scan(2)) && Overtaken(E).bufs[1].count == 0
    ensures var t := Doubled(); t.procs[0] == Holding(A, 0) && t.procs[3] == Holding(A, 1) && t.bufs[0].key == E
  {
    Preparation();
    Overtaking(E);
    Robbery(E);
    Robbing();
    Doubling();
    hide Reaches, Enabled, Robs;
    ReachTrans(Start(), Prepared(), Overtaken(E));
    ReachTrans(Overtaken(E), Robbed(), Doubled());
  }

  /** When process 2 wants the block that process 1 has got meanwhile, it puts buffer 0 back for no block and with count 0.
      Process 0, which still has it, panics when it releases it. */
  lemma CountLost()
    ensures Boot(Start()) && Reaches(Start(), Overtaken(D))
    ensures Enabled(Overtaken(D), Scan(2)) && PutsBackHeld(Overtaken(D), Scan(2))
    ensures var t := Do(Overtaken(D), Scan(2));
            |t.procs| == 4 && |t.bufs| == 4 && t.procs[0] == Holding(A, 0) && t.bufs[0].count == 0 && !Enabled(t, Release(0))
  {
    Preparation();
    Overtaking(D);
    Robbery(D);
    LostFacts();
    hide *;
    var s := Overtaken(D);
    TakenState(s, 2);
    Panics(Do(s, Scan(2)));
    ReachTrans(Start(), Prepared(), s);
  }

  lemma LostFacts()
    ensures var s := Overtaken(D);
            && Enabled(s, Scan(2)) && Scanned(s, 2) == Takes(0) && IsCached(Grab(s, 2, D, 0), D) && PutsBackHeld(s, Scan(2))
            && |s.procs| == 4 && |s.bufs| == 4 && s.procs[0] == Holding(A, 0) && s.procs[2].k == D && !s.bufs[0].dirt
  {
    Robbery(D);
    var s := Overtaken(D);
    assert Shows(Grab(s, 2, D, 0), D, 3);
    hide Walk, Scanned, Grab;
  }

  lemma Panics(t: State)
    requires |t.procs| == 4 && |t.bufs| == 4 && t.procs[0] == Holding(A, 0) && t.bufs[0].count == 0
    ensures !Enabled(t, Release(0))
  {
  }
}
