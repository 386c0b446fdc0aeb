/** The two link structures that run through the buffer heads: hash chains, doubly linked and ended by NULL, and the
    circular free list. Links are buffer numbers. */
module BufferLinks {
  import opened Collections

  const NULL := -1

  /** `s` without its element `k`. */
  function Cut(s: seq<nat>, k: nat): (r: seq<nat>)
    requires k < |s|
    ensures |r| == |s| - 1
  {
    s[..k] + s[k + 1..]
  }

  /** Cutting one of distinct elements leaves the others, in order. */
  lemma CutKeeps(s: seq<nat>, k: nat)
    requires k < |s| && Distinct(s)
    ensures Distinct(Cut(s, k)) && s[k] !in Cut(s, k)
    ensures forall b :: b in Cut(s, k) <==> b in s && b != s[k]
  {
    var r := Cut(s, k);
    forall b ensures b in r <==> b in s && b != s[k] {
      if b in s && b != s[k] {
        var i :| 0 <= i < |s| && s[i] == b;
        assert r[if i < k then i else i - 1] == b;
      }
    }
  }

  // ---------- The circular list ----------

  function Succ(i: nat, n: nat): nat { if i + 1 >= n then 0 else i + 1 }
  function Pred(i: nat, n: nat): nat
    requires n > 0
  {
    if i == 0 then n - 1 else i - 1
  }

  predicate Ring(next: seq<nat>, prev: seq<nat>, first: nat, ring: seq<nat>) {
    && |ring| > 0 && ring[0] == first && Distinct(ring) && |next| == |prev|
    && (forall i | 0 <= i < |ring| :: RingAt(next, prev, ring, i))
  }

  predicate RingAt(next: seq<nat>, prev: seq<nat>, ring: seq<nat>, i: nat)
    requires i < |ring| && |next| == |prev|
  {
    && ring[i] < |next|
    && next[ring[i]] == ring[Succ(i, |ring|)] && prev[ring[i]] == ring[Pred(i, |ring|)]
  }

  /** Unlinking an element of a ring of at least two gives the ring without it. */
  lemma RingRemove(next: seq<nat>, prev: seq<nat>, first: nat, ring: seq<nat>, k: nat)
    requires Ring(next, prev, first, ring) && 1 < |ring| && k < |ring|
    ensures RingAt(next, prev, ring, k) && next[ring[k]] < |next| && prev[ring[k]] < |next|
    ensures var b := ring[k];
            Ring(next[prev[b] := next[b]], prev[next[b] := prev[b]], if first == b then next[b] else first, Cut(ring, k))
  {
    var n, b, r := |ring|, ring[k], Cut(ring, k);
    CutKeeps(ring, k);
    assert RingAt(next, prev, ring, k) && RingAt(next, prev, ring, Pred(k, n)) && RingAt(next, prev, ring, Succ(k, n));
    var next', prev' := next[prev[b] := next[b]], prev[next[b] := prev[b]];
    forall i | 0 <= i < |r|
      ensures RingAt(next', prev', r, i)
    {
      var j := if i < k then i else i + 1;
      assert r[i] == ring[j];
      assert RingAt(next, prev, ring, j);
      assert ring[j] == prev[b] <==> j == Pred(k, n);
      assert ring[j] == next[b] <==> j == Succ(k, n);
    }
  }

  /** Linking an element in before the first one puts it at the end. */
  lemma RingInsert(next: seq<nat>, prev: seq<nat>, first: nat, ring: seq<nat>, b: nat)
    requires Ring(next, prev, first, ring) && b < |next| && b !in ring
    ensures RingAt(next, prev, ring, 0) && prev[first] < |next|
    ensures Ring(next[b := first][prev[first] := b], prev[b := prev[first]][first := b], first, ring + [b])
  {
    var n, r := |ring|, ring + [b];
    assert RingAt(next, prev, ring, 0) && RingAt(next, prev, ring, n - 1);
    var next', prev' := next[b := first][prev[first] := b], prev[b := prev[first]][first := b];
    forall i | 0 <= i < |r|
      ensures RingAt(next', prev', r, i)
    {
      if i < n {
        assert r[i] == ring[i];
        assert RingAt(next, prev, ring, i);
      }
    }
  }

  // ---------- Chains ----------

  function At(chain: seq<nat>, i: int): int {
    if 0 <= i < |chain| then chain[i] else NULL
  }

  predicate Chain(next: seq<int>, prev: seq<int>, head: int, chain: seq<nat>) {
    && head == At(chain, 0) && Distinct(chain) && |next| == |prev|
    && (forall i | 0 <= i < |chain| :: ChainAt(next, prev, chain, i))
  }

  predicate ChainAt(next: seq<int>, prev: seq<int>, chain: seq<nat>, i: nat)
    requires i < |chain| && |next| == |prev|
  {
    chain[i] < |next| && next[chain[i]] == At(chain, i + 1) && prev[chain[i]] == At(chain, i - 1)
  }

  /** Sets `s[i]`, if `i` is not NULL. */
  function Put(s: seq<int>, i: int, v: int): (r: seq<int>)
    requires i == NULL || 0 <= i < |s|
    ensures |r| == |s|
  {
    if i == NULL then s else s[i := v]
  }

  lemma ChainRemove(next: seq<int>, prev: seq<int>, head: int, chain: seq<nat>, k: nat)
    requires Chain(next, prev, head, chain) && k < |chain|
    ensures ChainAt(next, prev, chain, k)
    ensures var b := chain[k];
            && (next[b] == NULL || 0 <= next[b] < |next|) && (prev[b] == NULL || 0 <= prev[b] < |next|)
            && (next[b] != NULL ==> next[b] in chain) && (prev[b] != NULL ==> prev[b] in chain)
            && Chain(Put(next, prev[b], next[b]), Put(prev, next[b], prev[b]), if head == b then next[b] else head,
                 Cut(chain, k))
  {
    var b, r := chain[k], Cut(chain, k);
    CutKeeps(chain, k);
    assert ChainAt(next, prev, chain, k);
    assert k > 0 ==> ChainAt(next, prev, chain, k - 1);
    assert k + 1 < |chain| ==> ChainAt(next, prev, chain, k + 1);
    var next', prev' := Put(next, prev[b], next[b]), Put(prev, next[b], prev[b]);
    forall i | 0 <= i < |r|
      ensures ChainAt(next', prev', r, i)
    {
      var j := if i < k then i else i + 1;
      assert r[i] == chain[j];
      assert ChainAt(next, prev, chain, j);
    }
  }

  lemma ChainInsert(next: seq<int>, prev: seq<int>, head: int, chain: seq<nat>, b: nat)
    requires Chain(next, prev, head, chain) && b < |next| && b !in chain
    ensures head == NULL || (0 <= head < |next| && head in chain)
    ensures Chain(next[b := head], Put(prev[b := NULL], head, b), b, [b] + chain)
  {
    var r := [b] + chain;
    assert |chain| > 0 ==> ChainAt(next, prev, chain, 0);
    var next', prev' := next[b := head], Put(prev[b := NULL], head, b);
    forall i | 0 <= i < |r|
      ensures ChainAt(next', prev', r, i)
    {
      if i > 0 {
        assert r[i] == chain[i - 1];
        assert ChainAt(next, prev, chain, i - 1);
      }
    }
  }

  /** A chain is not disturbed by changes to links of buffers outside it. */
  lemma ChainKept(next: seq<int>, prev: seq<int>, next': seq<int>, prev': seq<int>, head: int, chain: seq<nat>)
    requires Chain(next, prev, head, chain) && |next'| == |prev'| == |next|
    requires forall b | b in chain && b < |next| :: next'[b] == next[b] && prev'[b] == prev[b]
    ensures Chain(next', prev', head, chain)
  {
    forall i | 0 <= i < |chain| ensures ChainAt(next', prev', chain, i) {
      assert ChainAt(next, prev, chain, i);
    }
  }
}
