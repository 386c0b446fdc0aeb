/** C strings and 32-bit words in memory, and strings laid out one behind the other. */
module ArgStrings {
  type Byte = b: int | 0 <= b < 256

  /** There is a null byte at or after `p`. */
  predicate HasNul(m: seq<Byte>, p: nat)
    decreases |m| - p
  {
    p < |m| && (m[p] == 0 || HasNul(m, p + 1))
  }

  /** The C string at `p`. */
  function CStr(m: seq<Byte>, p: nat): (s: seq<Byte>)
    requires HasNul(m, p)
    ensures p + |s| < |m| && m[p + |s|] == 0
    decreases |m| - p
  {
    if m[p] == 0 then [] else [m[p]] + CStr(m, p + 1)
  }

  lemma {:induction false} CStrSlice(m: seq<Byte>, p: nat)
    requires HasNul(m, p)
    ensures var s := CStr(m, p); s == m[p..p + |s|] && NonZero(s)
    decreases |m| - p
  {
    if m[p] != 0 { CStrSlice(m, p + 1); }
  }

  predicate NonZero(s: seq<Byte>) {
    forall i | 0 <= i < |s| :: s[i] != 0
  }

  lemma {:induction false} CStrIs(m: seq<Byte>, p: nat, s: seq<Byte>)
    requires NonZero(s) && Holds(m, p, s) && p + |s| < |m| && m[p + |s|] == 0
    ensures HasNul(m, p) && CStr(m, p) == s
    decreases |s|
  {
    if s != [] {
      assert m[p] == s[0];
      assert m[p + 1..p + 1 + |s[1..]|] == s[1..];
      CStrIs(m, p + 1, s[1..]);
      assert s == [s[0]] + s[1..];
    }
  }

  /** Only the bytes of the string and its null matter. */
  lemma {:induction false} CStrKept(m: seq<Byte>, n: seq<Byte>, p: nat)
    requires HasNul(m, p) && |n| == |m| && forall i | p <= i <= p + |CStr(m, p)| :: n[i] == m[i]
    ensures HasNul(n, p) && CStr(n, p) == CStr(m, p)
  {
    var s := CStr(m, p);
    CStrSlice(m, p);
    assert n[p..p + |s|] == s;
    CStrIs(n, p, s);
  }

  // ---------- Strings in a row ----------

  /** The bytes are in memory from `p` on. */
  predicate Holds(m: seq<Byte>, p: nat, bytes: seq<Byte>) {
    p + |bytes| <= |m| && m[p..p + |bytes|] == bytes
  }

  /** What is in `m` from `p` on is in `n` as well, `shift` bytes higher. */
  predicate Moved(m: seq<Byte>, n: seq<Byte>, shift: nat, p: nat) {
    |n| == shift + |m| && forall b | p <= b < |m| :: n[shift + b] == m[b]
  }

  lemma MovedLess(m: seq<Byte>, n: seq<Byte>, shift: nat, p: nat, q: nat)
    requires Moved(m, n, shift, p) && p <= q
    ensures Moved(m, n, shift, q)
  {
  }

  lemma HoldsMoved(m: seq<Byte>, n: seq<Byte>, shift: nat, p: nat, bytes: seq<Byte>)
    requires Holds(m, p, bytes) && Moved(m, n, shift, p)
    ensures Holds(n, shift + p, bytes)
  {
    forall i | 0 <= i < |bytes| ensures n[shift + p + i] == bytes[i] {
      assert m[p..p + |bytes|][i] == m[p + i] == n[shift + (p + i)];
    }
  }

  /** The strings with their nulls, the first one lowest. */
  function Flat(strings: seq<seq<Byte>>): seq<Byte> {
    if strings == [] then [] else strings[0] + [0] + Flat(strings[1..])
  }

  function Size(strings: seq<seq<Byte>>): (n: nat)
    ensures n == |Flat(strings)| && n >= |strings|
  {
    if strings == [] then 0 else |strings[0]| + 1 + Size(strings[1..])
  }

  lemma {:induction false} FlatAppend(a: seq<seq<Byte>>, b: seq<seq<Byte>>)
    ensures Flat(a + b) == Flat(a) + Flat(b)
    decreases |a|
  {
    if a == [] {
      assert a + b == b;
    } else {
      assert (a + b)[1..] == a[1..] + b;
      FlatAppend(a[1..], b);
      assert a[0] + [0] + (Flat(a[1..]) + Flat(b)) == (a[0] + [0] + Flat(a[1..])) + Flat(b);
    }
  }

  lemma FlatOne(s: seq<Byte>)
    ensures Flat([s]) == s + [0]
  {
    var one: seq<seq<Byte>> := [s];
    assert one[1..] == [];
    assert s + [0] + [] == s + [0];
  }

  /** If the strings are in memory in a row from `p` on, the `k`-th one starts where the ones before it end. */
  lemma {:induction false} FlatAt(m: seq<Byte>, p: nat, strings: seq<seq<Byte>>, k: nat)
    requires k < |strings| && (forall i | 0 <= i < |strings| :: NonZero(strings[i])) && Holds(m, p, Flat(strings))
    ensures var q := p + Size(strings[..k]);
            q + |strings[k]| < p + Size(strings) && HasNul(m, q) && CStr(m, q) == strings[k]
  {
    hide Flat, Size, HasNul, CStr, Joined;
    FlatSplit(strings, k);
    StringIn(m, p, Flat(strings), Flat(strings[..k]), strings[k], Flat(strings[k + 1..]));
  }

  predicate Joined(f: seq<Byte>, x: seq<Byte>, s: seq<Byte>, z: seq<Byte>) {
    f == x + (s + [0] + z)
  }

  lemma StringIn(m: seq<Byte>, p: nat, f: seq<Byte>, x: seq<Byte>, s: seq<Byte>, z: seq<Byte>)
    requires Holds(m, p, f) && Joined(f, x, s, z) && NonZero(s)
    ensures |x| + |s| < |f| && HasNul(m, p + |x|) && CStr(m, p + |x|) == s
  {
    hide Joined, Holds, NonZero;
    Middle(m, p, f, x, s, z);
    CStrIs(m, p + |x|, s);
  }

  lemma SizeNext(strings: seq<seq<Byte>>, k: nat)
    requires k < |strings|
    ensures Size(strings[..k + 1]) == Size(strings[..k]) + |strings[k]| + 1
  {
    assert strings[..k + 1] == strings[..k] + [strings[k]];
    FlatAppend(strings[..k], [strings[k]]);
    FlatOne(strings[k]);
  }

  lemma FlatSplit(strings: seq<seq<Byte>>, k: nat)
    requires k < |strings|
    ensures Joined(Flat(strings), Flat(strings[..k]), strings[k], Flat(strings[k + 1..]))
  {
    assert strings == strings[..k] + strings[k..];
    FlatAppend(strings[..k], strings[k..]);
    assert strings[k..][0] == strings[k] && strings[k..][1..] == strings[k + 1..];
  }

  lemma Middle(m: seq<Byte>, p: nat, f: seq<Byte>, x: seq<Byte>, s: seq<Byte>, z: seq<Byte>)
    requires Holds(m, p, f) && Joined(f, x, s, z)
    ensures |x| + |s| < |f| && p + |x| + |s| < |m| && Holds(m, p + |x|, s) && m[p + |x| + |s|] == 0
  {
    forall i | 0 <= i <= |s| ensures m[p + |x| + i] == if i < |s| then s[i] else 0 {
      assert m[p..p + |f|][|x| + i] == f[|x| + i] == (s + [0] + z)[i];
    }
  }

  // ---------- Words ----------

  const WORD := 0x1_0000_0000

  function Long(m: seq<Byte>, a: nat): nat
    requires a + 4 <= |m|
  {
    m[a] as int + 0x100 * (m[a + 1] as int) + 0x1_0000 * (m[a + 2] as int) + 0x100_0000 * (m[a + 3] as int)
  }

  /** The lowest byte comes first. */
  lemma LongBytes(m: seq<Byte>, a: nat)
    requires a + 4 <= |m|
    ensures Long(m, a) < WORD
    ensures m[a] as int == Long(m, a) % 0x100 && m[a + 1] as int == Long(m, a) / 0x100 % 0x100
    ensures m[a + 2] as int == Long(m, a) / 0x1_0000 % 0x100 && m[a + 3] as int == Long(m, a) / 0x100_0000
  {
    var b, c, d, e: int := m[a] as int, m[a + 1] as int, m[a + 2] as int, m[a + 3] as int;
    var v := Long(m, a);
    assert v == b + 0x100 * (c + 0x100 * (d + 0x100 * e));
    assert v / 0x100 == c + 0x100 * (d + 0x100 * e);
    assert v / 0x1_0000 == v / 0x100 / 0x100 == d + 0x100 * e;
    assert v / 0x100_0000 == v / 0x100 / 0x100 / 0x100 == e;
  }

  /** There is a null pointer at or after `a`. */
  predicate Ended(m: seq<Byte>, a: nat)
    decreases |m| - a
  {
    a + 4 <= |m| && (Long(m, a) == 0 || Ended(m, a + 4))
  }

  /** The pointers from `a` up to the null pointer. No table is an empty one. */
  function Table(m: seq<Byte>, a: nat): seq<nat>
    requires a == 0 || Ended(m, a)
  {
    if a == 0 then [] else Words(m, a)
  }

  function Words(m: seq<Byte>, a: nat): seq<nat>
    requires Ended(m, a)
    decreases |m| - a
  {
    if Long(m, a) == 0 then [] else [Long(m, a)] + Words(m, a + 4)
  }

  lemma {:induction false} WordAt(m: seq<Byte>, a: nat, k: nat)
    requires Ended(m, a) && k <= |Words(m, a)|
    ensures a + 4 * k + 4 <= |m|
    ensures Long(m, a + 4 * k) == if k < |Words(m, a)| then Words(m, a)[k] else 0
    ensures k < |Words(m, a)| ==> Words(m, a)[k] != 0
    decreases k
  {
    if k > 0 { WordAt(m, a + 4, k - 1); }
  }

  lemma LongParts(v: nat)
    requires v < WORD
    ensures v == v % 0x100 + 0x100 * (v / 0x100 % 0x100) + 0x1_0000 * (v / 0x1_0000 % 0x100) + 0x100_0000 * (v / 0x100_0000)
    ensures v / 0x100_0000 < 0x100
  {
    assert v / 0x1_0000 == v / 0x100 / 0x100 && v / 0x100_0000 == v / 0x100 / 0x100 / 0x100;
  }
}
