/** Sequences of distinct numbers, and the sizes of sets. */
module Collections {
  predicate Distinct(s: seq<nat>) {
    forall i, j | 0 <= i < j < |s| :: s[i] != s[j]
  }

  function Elems(s: seq<nat>): set<nat> { set b | b in s }

  /** The numbers below `n`. */
  function Numbers(n: nat): (b: set<nat>)
    ensures |b| == n && forall s: nat :: s in b <==> s < n
  {
    if n == 0 then {} else Numbers(n - 1) + {n - 1}
  }

  lemma Fewer<T>(a: set<T>, b: set<T>)
    requires a <= b
    ensures |a| <= |b|
  {
    assert b == a + (b - a);
  }

  lemma {:induction false} Count(s: seq<nat>)
    requires Distinct(s)
    ensures |Elems(s)| == |s|
  {
    if s != [] {
      var init, last := s[..|s| - 1], s[|s| - 1];
      Count(init);
      assert s == init + [last];
      assert Elems(s) == Elems(init) + {last};
      assert last !in init;
    }
  }

  /** Distinct numbers below `n` are at most `n`, and exactly `n` if and only if they are all of them. */
  lemma CountBelow(s: seq<nat>, n: nat)
    requires Distinct(s) && forall b | b in s :: b < n
    ensures |s| <= n && (|s| == n <==> forall b: nat | b < n :: b in s)
  {
    Count(s);
    var rest := Numbers(n) - Elems(s);
    assert Numbers(n) == Elems(s) + rest;
    assert rest == {} <==> |rest| == 0;
    if rest == {} {
      forall b: nat | b < n ensures b in s { assert b in Numbers(n) && b !in rest; }
    } else {
      var b :| b in rest;
      assert b < n && b !in s;
    }
  }
}
