/** fs/exec.c: the argument and environment strings on their way to the stack of a new program. */
module ExecArgs {
  import opened ArgStrings

  const PAGE := 4096
  const MAX_ARG_PAGES := 32
  const AREA := 131072        // MAX_ARG_PAGES pages
  const DATA := 0x400_0000    // size of the data segment

  /** Every pointer of a table points to a string. */
  predicate Pointers(m: seq<Byte>, table: seq<nat>) {
    forall k | 0 <= k < |table| :: HasNul(m, table[k])
  }

  function Strings(m: seq<Byte>, table: seq<nat>): (s: seq<seq<Byte>>)
    requires Pointers(m, table)
    ensures |s| == |table|
  {
    seq(|table|, k requires 0 <= k < |table| => CStr(m, table[k]))
  }

  lemma StringsNonZero(m: seq<Byte>, table: seq<nat>)
    requires Pointers(m, table)
    ensures forall k | 0 <= k < |table| :: NonZero(Strings(m, table)[k])
  {
    forall k | 0 <= k < |table| { CStrSlice(m, table[k]); }
  }

  /** A table of strings in the old program's memory; a null pointer stands for an empty table. */
  predicate Listed(m: seq<Byte>, table: nat) {
    |m| <= DATA && (table == 0 || Ended(m, table)) && Pointers(m, Table(m, table))
  }

  function Listing(m: seq<Byte>, table: nat): (s: seq<seq<Byte>>)
    requires Listed(m, table)
    ensures |s| == |Table(m, table)|
  {
    Strings(m, Table(m, table))
  }

  lemma ListingNonZero(m: seq<Byte>, table: nat)
    requires Listed(m, table)
    ensures forall k | 0 <= k < |Listing(m, table)| :: NonZero(Listing(m, table)[k])
  {
    StringsNonZero(m, Table(m, table));
  }

  lemma ListingAt(m: seq<Byte>, table: nat, k: nat)
    requires Listed(m, table) && k < |Table(m, table)|
    ensures table + 4 * k + 4 <= |m| <= DATA
    ensures var str := Long(m, table + 4 * k);
            HasNul(m, str) && CStr(m, str) == Listing(m, table)[k]
  {
    WordAt(m, table, k);
  }

  /** What the new program finds: the number of arguments, a table of pointers to them, one to the environment, each
      ended by a null pointer. The strings lie above the tables. */
  predicate Decodes(m: seq<Byte>, sp: nat, args: seq<seq<Byte>>, envs: seq<seq<Byte>>) {
    var argv := sp + 4;
    var envp := argv + 4 * (|args| + 1);
    var end := envp + 4 * (|envs| + 1);
    && sp % 4 == 0 && end <= |m|
    && Long(m, sp) == |args|
    && PointsTo(m, argv, args, end) && PointsTo(m, envp, envs, end)
  }

  predicate PointsTo(m: seq<Byte>, table: nat, strings: seq<seq<Byte>>, low: nat)
    requires table + 4 * (|strings| + 1) <= |m|
  {
    && (forall k | 0 <= k < |strings| ::
          Entry(m, table, k) >= low && HasNul(m, Entry(m, table, k)) && CStr(m, Entry(m, table, k)) == strings[k])
    && Entry(m, table, |strings|) == 0
  }

  /** The `k`-th pointer of a table. */
  function Entry(m: seq<Byte>, table: nat, k: nat): nat
    requires table + 4 * k + 4 <= |m|
  {
    Long(m, table + 4 * k)
  }

  function PageOf(p: nat): nat { p / PAGE }

  // ---------- What becomes of a copy ----------

  /** copy_strings returns where the strings start, or 0 when there is no memory. Strings that do not fit are not noticed:
      the copy goes on downwards until it meets a page that is not there, which is a panic, or until the address wraps
      and the array of pages is read outside its bounds. */
  datatype Copied = At(p: nat) | NoMemory | NoPage | OutOfArray

  /** One string and its null, `len` bytes. */
  function CopyOne(len: nat, p: nat, free: nat): Copied {
    if len > p then (if p < PAGE then OutOfArray else NoPage)
    else if PageOf(p) - PageOf(p - len) > free then NoMemory
    else At(p - len)
  }

  lemma Wrapped(p: nat, len: nat)
    requires p <= AREA && 0 < len <= DATA
    ensures if len <= p then (p - len) % WORD / PAGE == PageOf(p - len) <= PageOf(p) && PageOf(p - len) < MAX_ARG_PAGES
            else (p - len) % WORD / PAGE >= MAX_ARG_PAGES
  {
  }

  /** How much room the last strings take, as many of them as fit below `p`. */
  function Fitting(strings: seq<seq<Byte>>, p: nat): (n: nat)
    ensures n <= p && (n == Size(strings) <==> Size(strings) <= p)
  {
    if strings == [] then 0 else if Size(strings) <= p then Size(strings) else Fitting(strings[1..], p)
  }

  /** All strings of a table, with `free` free pages. */
  function Copy(strings: seq<seq<Byte>>, p: nat, free: nat): Copied {
    var n := Fitting(strings, p);
    if PageOf(p) - PageOf(p - n) > free then NoMemory
    else if n == Size(strings) then At(p - n)
    else if p - n < PAGE then OutOfArray
    else NoPage
  }

  lemma {:induction false} FittingLeast(s: seq<seq<Byte>>, k: nat, p: nat)
    requires k <= |s| && Size(s[k..]) <= p
    ensures Fitting(s, p) >= Size(s[k..])
    ensures 0 < k && Size(s[k - 1..]) > p ==> Fitting(s, p) == Size(s[k..])
    decreases |s|
  {
    if k > 0 {
      assert s[1..][k - 1..] == s[k..];
      if k > 1 { assert s[1..][k - 2..] == s[k - 1..]; } else { assert s[0..] == s; }
      FittingLeast(s[1..], k - 1, p);
      SizeTail(s, k - 1);
      SizeTail(s, k);
    } else {
      assert s[0..] == s;
    }
  }

  /** Copying string by string, the last one first, comes to what `Copy` says. */
  lemma CopyNext(s: seq<seq<Byte>>, k: nat, p: nat, free: nat)
    requires 0 < k <= |s| && Size(s[k..]) <= p && PageOf(p) - PageOf(p - Size(s[k..])) <= free
    ensures Size(s[k - 1..]) == |s[k - 1]| + 1 + Size(s[k..])
    ensures var q := p - Size(s[k..]);
            var r := CopyOne(|s[k - 1]| + 1, q, free - (PageOf(p) - PageOf(q)));
            r.At? || Copy(s, p, free) == r
  {
    assert s[k - 1..][1..] == s[k..];
    FittingLeast(s, k, p);
    if Size(s[k - 1..]) <= p { FittingLeast(s, k - 1, p); }
    else { SizeTail(s, k - 1); }
  }

  /** The strings from `k` on have been copied, and lie from `q` to `p`. */
  ghost predicate Partly(area: seq<Byte>, s: seq<seq<Byte>>, k: nat, p: nat, q: nat, free: nat, left: nat) {
    && k <= |s| && q <= p <= |area| && q == p - Size(s[k..])
    && left == free - (PageOf(p) - PageOf(q)) && area[q..p] == Flat(s[k..])
  }

  lemma NothingCopied(area: seq<Byte>, s: seq<seq<Byte>>, p: nat, free: nat)
    requires p <= |area|
    ensures Partly(area, s, |s|, p, p, free, free)
  {
    assert s[|s|..] == [];
  }

  lemma OneMore(a: seq<Byte>, b: seq<Byte>, s: seq<seq<Byte>>, k: nat, p: nat, q: nat,
                free: nat, before: nat, after: nat, r: Copied)
    requires k < |s| && Partly(a, s, k + 1, p, q, free, before) && SameAbove(a, b, q)
    requires r == CopyOne(|s[k]| + 1, q, before)
    requires r.At? ==> r.p <= q && after == before - (PageOf(q) - PageOf(r.p)) && b[r.p..q] == s[k] + [0]
    ensures if r.At? then Partly(b, s, k, p, r.p, free, after) else r == Copy(s, p, free)
  {
    hide Flat, Size, Copy, PageOf;
    CopyNext(s, k + 1, p, free);
    if r.At? {
      StringsFrom(s, k);
      JoinRight(b, a, r.p, q, p);
    }
  }

  lemma StringsFrom(s: seq<seq<Byte>>, k: nat)
    requires k < |s|
    ensures Flat(s[k..]) == (s[k] + [0]) + Flat(s[k + 1..])
  {
    assert s[k..][1..] == s[k + 1..];
  }

  lemma AllCopied(area: seq<Byte>, s: seq<seq<Byte>>, p: nat, q: nat, free: nat, left: nat)
    requires Partly(area, s, 0, p, q, free, left)
    ensures Copy(s, p, free) == At(q) && q == p - Size(s) && left == free - (PageOf(p) - PageOf(q))
    ensures q <= p <= |area| && area[q..p] == Flat(s)
  {
    assert s[0..] == s;
  }

  /** What do_execve makes of both tables: a failed copy of the environment that returned is taken for address 0. */
  function CopyBoth(args: seq<seq<Byte>>, envs: seq<seq<Byte>>, free: nat): Copied {
    var e := Copy(envs, AREA, free);
    if e.At? then Copy(args, e.p, free - (MAX_ARG_PAGES - PageOf(e.p)))
    else if e.NoMemory? then Copy(args, 0, 0)
    else e
  }

  /** The program starts if and only if its strings leave a byte of the area free and there are pages for them. */
  lemma StartsIff(args: seq<seq<Byte>>, envs: seq<seq<Byte>>, free: nat)
    ensures var r, n := CopyBoth(args, envs, free), Size(args) + Size(envs);
            && (r.At? && r.p != 0 <==> n < 0x2_0000 && 32 - (0x2_0000 - n) / 4096 <= free)
            && (r.At? && r.p != 0 ==> r.p == 0x2_0000 - n)
  {
    NothingAt0(args, 0);
  }

  lemma NothingAt0(args: seq<seq<Byte>>, free: nat)
    ensures Copy(args, 0, free) == if args == [] then At(0) else OutOfArray
  {
    if args != [] { assert Size(args) > 0; }
  }

  /** Strings that fill the area to the last byte are refused, although they fit. */
  lemma FullArea(args: seq<seq<Byte>>, envs: seq<seq<Byte>>, free: nat)
    requires Size(args) + Size(envs) == AREA && MAX_ARG_PAGES <= free
    ensures CopyBoth(args, envs, free) == At(0)
  {
  }

  /** Strings that do not fit are never refused, whatever the memory, except for lack of it. */
  lemma TooLong(args: seq<seq<Byte>>, envs: seq<seq<Byte>>, free: nat)
    requires Size(args) + Size(envs) > AREA && MAX_ARG_PAGES <= free
    ensures CopyBoth(args, envs, free).NoPage? || CopyBoth(args, envs, free).OutOfArray?
  {
  }

  /** When the environment finds no memory, the arguments are copied at address 0, unless there are none. */
  lemma NoEnvironment(args: seq<seq<Byte>>, envs: seq<seq<Byte>>, free: nat)
    requires Copy(envs, AREA, free).NoMemory?
    ensures CopyBoth(args, envs, free) == if args == [] then At(0) else OutOfArray
  {
    NothingAt0(args, 0);
  }

  /** The bytes from `p` up are the same. */
  predicate SameAbove(a: seq<Byte>, b: seq<Byte>, p: nat) {
    p <= |a| == |b| && a[p..] == b[p..]
  }

  lemma SameAboveTrans(a: seq<Byte>, b: seq<Byte>, c: seq<Byte>, q: nat, p: nat)
    requires SameAbove(a, b, p) && SameAbove(b, c, q) && q <= p
    ensures SameAbove(a, c, p)
  {
    assert b[p..] == b[q..][p - q..] && c[p..] == c[q..][p - q..];
  }

  // ---------- Pages ----------

  function Held(page: seq<bool>): nat {
    if page == [] then 0 else (if page[0] then 1 else 0) + Held(page[1..])
  }

  lemma {:induction false} HeldSet(page: seq<bool>, i: nat, b: bool)
    requires i < |page| && page[i] != b
    ensures Held(page[i := b]) == if b then Held(page) + 1 else Held(page) - 1
    decreases |page|
  {
    if i > 0 {
      HeldSet(page[1..], i - 1, b);
      assert page[i := b][1..] == page[1..][i - 1 := b];
    } else {
      assert page[i := b][1..] == page[1..];
    }
  }

  lemma {:induction false} NoneHeld(page: seq<bool>)
    requires forall i | 0 <= i < |page| :: !page[i]
    ensures Held(page) == 0
    decreases |page|
  {
    if page != [] { NoneHeld(page[1..]); }
  }

  // ---------- What becomes of exec ----------

  datatype Outcome = Started(sp: nat) | Refused | Stopped(why: Copied)

  /** The program is started, with its strings, if and only if they leave a byte of the area and there are pages for
      them. It is refused, and all pages given back, when the second copy returned 0. Otherwise the kernel stops. */
  ghost predicate Fate(r: Outcome, args: seq<seq<Byte>>, envs: seq<seq<Byte>>, free: nat, left: nat, user: seq<Byte>) {
    var n, c := Size(args) + Size(envs), CopyBoth(args, envs, free);
    && (r.Started? <==> n < AREA && MAX_ARG_PAGES - PageOf(AREA - n) <= free)
    && (r.Started? ==> Decodes(user, r.sp, args, envs) && left == free - (MAX_ARG_PAGES - PageOf(AREA - n)))
    && (r.Refused? <==> c.NoMemory? || c == At(0))
    && (r.Refused? ==> left == free)
    && (r.Stopped? ==> r.why == c)
  }

  lemma FateIs(r: Outcome, args: seq<seq<Byte>>, envs: seq<seq<Byte>>, free: nat, left: nat, user: seq<Byte>)
    requires var c := CopyBoth(args, envs, free);
             match r
             case Started(sp) => c.At? && c.p != 0 && Decodes(user, sp, args, envs)
                                 && left == free - (MAX_ARG_PAGES - PageOf(c.p))
             case Refused => (c.NoMemory? || c == At(0)) && left == free
             case Stopped(why) => why == c && (c.NoPage? || c.OutOfArray?)
    ensures Fate(r, args, envs, free, left, user)
  {
    hide CopyBoth, Decodes;
    StartsIff(args, envs, free);
  }

  /** Both lists of strings, up to the end of the area. */
  predicate Laid(area: seq<Byte>, p: nat, n: nat, args: seq<seq<Byte>>, envs: seq<seq<Byte>>) {
    && n == Size(args) && p + n + Size(envs) == |area|
    && Holds(area, p, Flat(args)) && Holds(area, p + n, Flat(envs))
  }

  class Exec {
    const area: array<Byte>     // the pages that hold the strings, one behind the other
    const page: array<bool>     // which of them there are
    const user: array<Byte>     // the data segment of the new program
    var free: nat               // free pages of memory

    ghost predicate Valid()
      reads this
    {
      area.Length == AREA && page.Length == MAX_ARG_PAGES && user.Length == DATA && area != user
    }

    constructor (n: nat)
      ensures Valid() && fresh(area) && fresh(page) && fresh(user) && free == n
      ensures forall i | 0 <= i < MAX_ARG_PAGES :: !page[i]
    {
      area := new Byte[AREA](_ => 0);
      page := new bool[MAX_ARG_PAGES](_ => false);
      user := new Byte[DATA](_ => 0);
      free := n;
    }

    /** Exactly the pages from number `k` up are there. */
    predicate PagesFrom(k: nat)
      requires page.Length == MAX_ARG_PAGES
      reads page
    {
      forall i | 0 <= i < MAX_ARG_PAGES :: page[i] <==> i >= k
    }

    /** Free pages, and those that hold strings. */
    ghost function Pages(): nat
      reads this, page
    {
      free + Held(page[..])
    }

    /** count: the length of a table of pointers. */
    static method Count(m: seq<Byte>, argv: nat) returns (n: nat)
      requires argv == 0 || Ended(m, argv)
      ensures n == |Table(m, argv)|
    {
      n := 0;
      if argv == 0 { return; }
      WordAt(m, argv, 0);
      while Long(m, argv + 4 * n) != 0
        invariant n <= |Words(m, argv)| && argv + 4 * n + 4 <= |m|
        invariant Long(m, argv + 4 * n) == if n < |Words(m, argv)| then Words(m, argv)[n] else 0
        decreases |Words(m, argv)| - n
      {
        n := n + 1;
        WordAt(m, argv, n);
      }
      WordAt(m, argv, n);
    }

    // ---------- copy_strings ----------

    /** One string and its null go to the bytes below `p`. */
    method CopyString(m: seq<Byte>, str: nat, p: nat) returns (r: Copied)
      requires Valid() && HasNul(m, str) && |m| <= DATA && p <= AREA && (p != 0 ==> PagesFrom(PageOf(p)))
      modifies area, page, `free
      ensures SameAbove(old(area[..]), area[..], p) && Pages() == old(Pages())
      ensures r == CopyOne(|CStr(m, str)| + 1, p, old(free))
      ensures r.At? ==> r.p <= p && PagesFrom(PageOf(r.p)) && free == old(free) - (PageOf(p) - PageOf(r.p))
                        && area[r.p..p] == CStr(m, str) + [0]
    {
      var tmp := Skip(m, str);
      var len := tmp - str;
      Wrapped(p, len);
      var ok := GetPages((p - len) % WORD / PAGE, p);
      if !ok { return NoMemory; }
      r := CopyBytes(m, str, len, p);
    }

    /** Backwards, byte by byte. */
    method CopyBytes(m: seq<Byte>, str: nat, count: nat, p: nat) returns (r: Copied)
      requires Valid() && 0 < count && str + count <= |m| && p <= AREA
      requires if count <= p then PagesFrom(PageOf(p - count)) else p != 0 ==> PagesFrom(PageOf(p))
      modifies area
      ensures area[p..] == old(area[p..])
      ensures count <= p ==> r == At(p - count) && area[p - count..p] == m[str..str + count]
      ensures count > p ==> r == if p < PAGE then OutOfArray else NoPage
    {
      var tmp, len := str + count, count;
      var q: int := p;
      while len > 0
        invariant 0 <= len <= count && tmp == str + len && q == p - count + len && 0 <= q
        invariant count > p ==> q >= p / PAGE * PAGE
        invariant area[p..] == old(area[p..])
        invariant forall i | q <= i < p :: area[i] == m[str + i - (p - count)]
      {
        q := q - 1;
        if q < 0 { return OutOfArray; }
        if !page[q / PAGE] { return NoPage; }
        tmp := tmp - 1;
        area[q] := m[tmp];
        len := len - 1;
      }
      forall i | 0 <= i < count ensures area[q..p][i] == m[str..str + count][i] {
        assert area[q..p][i] == area[q + i];
      }
      r := At(q);
    }

    /** The end of a string, past its null. */
    static method Skip(m: seq<Byte>, str: nat) returns (tmp: nat)
      requires HasNul(m, str)
      ensures tmp == str + |CStr(m, str)| + 1 <= |m| && m[str..tmp] == CStr(m, str) + [0]
    {
      ghost var s := CStr(m, str);
      CStrSlice(m, str);
      assert forall i | 0 <= i < |s| :: m[str + i] == s[i];
      assert forall i | str <= i < str + |s| :: m[i] == s[i - str];
      tmp := str;
      while m[tmp] != 0
        invariant str <= tmp <= str + |s|
        invariant forall i | str <= i < str + |s| :: m[i] != 0
        decreases str + |s| - tmp
      {
        tmp := tmp + 1;
      }
      tmp := tmp + 1;
    }

    /** get_free_page: a cleared page, as long as there is one. */
    method GetFreePage(i: nat) returns (ok: bool)
      requires Valid() && i < MAX_ARG_PAGES && !page[i]
      modifies area, page, `free
      ensures ok <==> old(free) > 0
      ensures forall b | PAGE * (i + 1) <= b < AREA :: area[b] == old(area[b])
      ensures page[..] == if ok then old(page[..])[i := true] else old(page[..])
      ensures free == (if ok then old(free) - 1 else 0) && Pages() == old(Pages())
    {
      if free == 0 { return false; }
      HeldSet(page[..], i, true);
      free := free - 1;
      forall b | PAGE * i <= b < PAGE * (i + 1) { area[b] := 0; }
      page[i] := true;
      return true;
    }

    /** Fresh pages, from page `first` up to those that are there already. */
    method GetPages(first: nat, p: nat) returns (ok: bool)
      requires Valid() && p <= AREA && ((first <= PageOf(p) && p != 0) || first >= MAX_ARG_PAGES)
      requires p != 0 ==> PagesFrom(PageOf(p))
      modifies area, page, `free
      ensures area[p..] == old(area[p..]) && Pages() == old(Pages())
      ensures first >= MAX_ARG_PAGES ==> ok && page[..] == old(page[..]) && free == old(free)
      ensures first < MAX_ARG_PAGES ==> (ok <==> PageOf(p) - first <= old(free))
      ensures first < MAX_ARG_PAGES && ok ==> PagesFrom(first) && free == old(free) - (PageOf(p) - first)
    {
      var i := first;
      while i < MAX_ARG_PAGES && !page[i]
        invariant first <= i && (first < MAX_ARG_PAGES ==> i <= MAX_ARG_PAGES && i <= PageOf(p))
        invariant first >= MAX_ARG_PAGES ==> page[..] == old(page[..]) && free == old(free)
        invariant area[p..] == old(area[p..]) && Pages() == old(Pages())
        invariant first < MAX_ARG_PAGES ==> free == old(free) - (i - first)
        invariant first < MAX_ARG_PAGES ==>
                    forall j | 0 <= j < MAX_ARG_PAGES :: page[j] <==> j >= PageOf(p) || first <= j < i
        decreases MAX_ARG_PAGES - i
      {
        ghost var before := area[p..];
        var got := GetFreePage(i);
        assert PAGE * (i + 1) <= p;
        assert area[p..] == before;
        if !got { return false; }
        i := i + 1;
      }
      return true;
    }

    /** The strings of a table, the last one first, below `p`. */
    method CopyStrings(m: seq<Byte>, argc: nat, argv: nat, p: nat, ghost s: seq<seq<Byte>>) returns (r: Copied)
      requires Valid() && Listed(m, argv) && s == Listing(m, argv) && argc == |s|
      requires p <= AREA && (p != 0 ==> PagesFrom(PageOf(p)))
      modifies area, page, `free
      ensures SameAbove(old(area[..]), area[..], p) && Pages() == old(Pages())
      ensures r == Copy(s, p, old(free))
      ensures r.At? ==> r.p == p - Size(s) && (r.p != 0 ==> PagesFrom(PageOf(r.p)))
                        && free == old(free) - (PageOf(p) - PageOf(r.p)) && area[r.p..p] == Flat(s)
    {
      var left, q: nat := argc, p;
      NothingCopied(area[..], s, p, free);
      ghost var a0 := area[..];
      hide Flat, Size, Listing, Listed, Table, Copy, CopyOne, PageOf, Held, Partly, SameAbove, PagesFrom, Pages;
      while left > 0
        invariant 0 <= left <= argc && q <= p && (q != 0 ==> PagesFrom(PageOf(q)))
        invariant SameAbove(a0, area[..], p) && Pages() == old(Pages())
        invariant Partly(area[..], s, left, p, q, old(free), free)
      {
        left := left - 1;
        ListingAt(m, argv, left);
        ghost var a, f := area[..], free;
        r := CopyString(m, Long(m, argv + 4 * left), q);
        SameAboveTrans(a0, a, area[..], q, p);
        OneMore(a, area[..], s, left, p, q, old(free), f, free, r);
        if !r.At? { return; }
        q := r.p;
      }
      AllCopied(area[..], s, p, q, old(free), free);
      r := At(q);
    }

    // ---------- The new program's memory ----------

    /** The end of change_ldt: the pages go to the top of the data segment, the last one first. */
    method PutPages(ghost p: nat)
      requires Valid() && PagesFrom(PageOf(p))
      modifies user
      ensures Moved(area[..], user[..], DATA - AREA, p)
    {
      var i := MAX_ARG_PAGES;
      while i > 0
        invariant 0 <= i <= MAX_ARG_PAGES
        invariant forall b | PAGE * i <= b < AREA && page[b / PAGE] :: user[DATA - AREA + b] == area[b]
      {
        i := i - 1;
        if page[i] {
          forall b | PAGE * i <= b < PAGE * (i + 1) { user[DATA - AREA + b] := area[b]; }
        }
      }
    }

    /** put_fs_long */
    method PutLong(v: nat, at: nat)
      requires Valid() && v < WORD && at + 4 <= DATA
      modifies user
      ensures Long(user[..], at) == v
      ensures forall b | 0 <= b < DATA && !(at <= b < at + 4) :: user[b] == old(user[b])
    {
      LongParts(v);
      user[at], user[at + 1], user[at + 2], user[at + 3] :=
        v % 0x100, v / 0x100 % 0x100, v / 0x1_0000 % 0x100, v / 0x100_0000;
    }

    /** One of the two loops of create_tables: pointers to the strings at `p`, and a null pointer. */
    method PutTable(table: nat, p: nat, count: nat, ghost strings: seq<seq<Byte>>) returns (q: nat)
      requires Valid() && count == |strings| && Row(user[..], table, p, strings)
      modifies user
      ensures q == p + Size(strings)
      ensures PointsTo(user[..], table, strings, p)
      ensures forall b | 0 <= b < DATA && !(table <= b < table + 4 * (count + 1)) :: user[b] == old(user[b])
    {
      hide Flat, Size, HasNul, CStr, NonZero, PointsTo, Filled;
      ghost var m := user[..];
      q := p;
      var k := 0;
      NothingFilled(m, table, p, strings);
      while k < count
        invariant 0 <= k <= count && q == p + Size(strings[..k]) && q <= p + Size(strings)
        invariant Filled(m, user[..], table, p, strings, k)
      {
        ghost var before := user[..];
        PutLong(q, table + 4 * k);
        FilledMore(m, before, user[..], table, p, strings, k);
        q := Skip(user[..], q);
        k := k + 1;
      }
      assert strings[..count] == strings;
      ghost var before := user[..];
      PutLong(0, table + 4 * count);
      FilledAll(m, before, user[..], table, p, strings);
    }

    /** create_tables. `p` is where the strings start, the arguments first. */
    method CreateTables(p: nat, argc: nat, envc: nat, ghost args: seq<seq<Byte>>, ghost envs: seq<seq<Byte>>)
      returns (sp: nat)
      requires Valid() && argc == |args| && envc == |envs| && argc < WORD && 4 * (argc + envc + 3) + 3 <= p <= DATA
      requires Row(user[..], 0, p, args) && Row(user[..], 0, p + Size(args), envs)
      modifies user
      ensures Decodes(user[..], sp, args, envs)
      ensures forall b | 0 <= b < DATA && !(sp <= b < p) :: user[b] == old(user[b])
    {
      hide Row, PointsTo, Long, Size, Flat;
      ghost var m := user[..];
      sp := p - p % 4;
      sp := sp - 4 * (envc + 1);
      var envp := sp;
      sp := sp - 4 * (argc + 1);
      var argv := sp;
      sp := sp - 4;
      PutLong(argc, sp);
      ghost var t := user[..];
      RowKept(m, t, argv, p, args);
      var q := PutTable(argv, p, argc, args);
      RowKept(m, user[..], envp, q, envs);
      ghost var u := user[..];
      q := PutTable(envp, q, envc, envs);
      PointsToKept(u, user[..], argv, args, p);
      Higher(user[..], argv, args, p, envp + 4 * (envc + 1));
      Higher(user[..], envp, envs, p + Size(args), envp + 4 * (envc + 1));
      LongKept(t, user[..], sp);
    }

    // ---------- do_execve ----------

    /** The strings go to the area, the area to the new program's memory, and the tables below them. */
    method Arguments(m: seq<Byte>, argv: nat, envp: nat) returns (r: Outcome)
      requires Valid() && Listed(m, argv) && Listed(m, envp) && PagesFrom(MAX_ARG_PAGES)
      modifies area, page, user, `free
      ensures Fate(r, Listing(m, argv), Listing(m, envp), old(free), free, user[..])
    {
      ghost var args, envs := Listing(m, argv), Listing(m, envp);
      hide Listing, Ended, Pointers, Size, Flat, Decodes, NonZero, Row, Table, CopyBoth, Held, PageOf, Fate, Laid, Moved;
      var argc := Count(m, argv);
      var envc := Count(m, envp);
      NoneHeld(page[..]);
      var c := CopyAll(m, argc, argv, envc, envp, args, envs);
      if c.NoPage? || c.OutOfArray? {
        r := Stopped(c);
        FateIs(r, args, envs, old(free), free, user[..]);
        return;
      }
      var p := if c.At? then c.p else 0;
      if p == 0 {
        FreePages();
        FateIs(Refused, args, envs, old(free), free, user[..]);
        return Refused;
      }
      ListingNonZero(m, argv);
      ListingNonZero(m, envp);
      var sp := Build(m, argc, envc, p, args, envs);
      r := Started(sp);
      FateIs(r, args, envs, old(free), free, user[..]);
    }

    /** The pages become part of the new program's memory, with the tables below them. */
    method Build(m: seq<Byte>, argc: nat, envc: nat, p: nat, ghost args: seq<seq<Byte>>, ghost envs: seq<seq<Byte>>)
      returns (sp: nat)
      requires Valid() && PagesFrom(PageOf(p)) && argc == |args| && envc == |envs|
      requires Laid(area[..], p, Size(args), args, envs)
      requires forall k | 0 <= k < |args| :: NonZero(args[k])
      requires forall k | 0 <= k < |envs| :: NonZero(envs[k])
      modifies user
      ensures Decodes(user[..], sp, args, envs)
    {
      hide Size, Flat, Decodes, NonZero, Row, PageOf, Laid, Moved;
      ghost var a := area[..];
      PutPages(p);
      LaidShifted(a, user[..], DATA - AREA, p, Size(args), args, envs);
      sp := CreateTables(p + (DATA - AREA), argc, envc, args, envs);
    }

    /** Both tables, the environment first. A copy that has returned 0 is not told from one at address 0. */
    method CopyAll(m: seq<Byte>, argc: nat, argv: nat, envc: nat, envp: nat,
                   ghost args: seq<seq<Byte>>, ghost envs: seq<seq<Byte>>) returns (c: Copied)
      requires Valid() && Listed(m, argv) && Listed(m, envp) && PagesFrom(MAX_ARG_PAGES)
      requires args == Listing(m, argv) && envs == Listing(m, envp) && argc == |args| && envc == |envs|
      modifies area, page, `free
      ensures Pages() == old(Pages())
      ensures c == CopyBoth(args, envs, old(free))
      ensures c.At? && c.p != 0 ==> PagesFrom(PageOf(c.p)) && free == old(free) - (MAX_ARG_PAGES - PageOf(c.p))
      ensures c.At? && c.p != 0 ==> Laid(area[..], c.p, Size(args), args, envs)
    {
      hide Listing, Listed, Size, Flat, Copy, Held, Laid, SameAbove;
      var e := CopyStrings(m, envc, envp, AREA, envs);
      if e.NoPage? || e.OutOfArray? { return e; }
      var p := if e.At? then e.p else 0;
      ghost var b, now := area[..], free;
      c := CopyStrings(m, argc, argv, p, args);
      if p == 0 { NothingAt0(args, now); NothingAt0(args, 0); }
      if e.At? && c.At? { BothLaid(b, area[..], c.p, p, args, envs); }
      NothingAt0(args, 0);
    }

    /** The pages are given back. */
    method FreePages()
      requires Valid()
      modifies page, `free
      ensures free == old(Pages())
    {
      var i := 0;
      while i < MAX_ARG_PAGES
        invariant 0 <= i <= MAX_ARG_PAGES && Pages() == old(Pages())
        invariant forall j | 0 <= j < i :: !page[j]
      {
        if page[i] {
          HeldSet(page[..], i, false);
          ghost var before := page[..];
          page[i] := false;
          assert page[..] == before[i := false];
          free := free + 1;
        }
        i := i + 1;
      }
      NoneHeld(page[..]);
    }
  }

  lemma BothLaid(a: seq<Byte>, b: seq<Byte>, p: nat, q: nat, args: seq<seq<Byte>>, envs: seq<seq<Byte>>)
    requires p + Size(args) == q <= |a| == |b| == q + Size(envs) && SameAbove(a, b, q)
    requires a[q..|a|] == Flat(envs) && b[p..q] == Flat(args)
    ensures Laid(b, p, q - p, args, envs)
  {
    hide Flat, Size, SameAbove, Holds;
    HoldBoth(a, b, p, q, Flat(args), Flat(envs));
  }

  lemma HoldBoth(a: seq<Byte>, b: seq<Byte>, p: nat, q: nat, low: seq<Byte>, high: seq<Byte>)
    requires p <= q && SameAbove(a, b, q) && a[q..|a|] == high && b[p..q] == low
    ensures |a| == |b| && Holds(b, p, low) && Holds(b, q, high)
  {
    assert b[q..|b|] == b[q..] && a[q..|a|] == a[q..];
  }

  lemma LaidShifted(area: seq<Byte>, user: seq<Byte>, shift: nat, p: nat, n: nat,
                    args: seq<seq<Byte>>, envs: seq<seq<Byte>>)
    requires Laid(area, p, n, args, envs) && Moved(area, user, shift, p)
    requires forall k | 0 <= k < |args| :: NonZero(args[k])
    requires forall k | 0 <= k < |envs| :: NonZero(envs[k])
    requires 4 * (|area| + 1) <= shift
    ensures Row(user, 0, p + shift, args) && Row(user, 0, p + shift + n, envs)
    ensures |args| + |envs| <= |area| && p <= |area|
  {
    hide Flat, Size, NonZero, Row, Holds, Moved;
    MovedLess(area, user, shift, p, p + n);
    Shifted(area, user, shift, p, p + shift, args);
    Shifted(area, user, shift, p + n, p + shift + n, envs);
  }

  lemma RowKept(m: seq<Byte>, n: seq<Byte>, table: nat, p: nat, strings: seq<seq<Byte>>)
    requires Row(m, 0, p, strings) && table + 4 * (|strings| + 1) <= p && |m| == |n|
    requires forall b | p <= b < |m| :: n[b] == m[b]
    ensures Row(n, table, p, strings)
  {
    FlatKept(m, n, p, strings);
  }

  lemma Higher(m: seq<Byte>, table: nat, strings: seq<seq<Byte>>, high: nat, low: nat)
    requires table + 4 * (|strings| + 1) <= |m| && PointsTo(m, table, strings, high) && low <= high
    ensures PointsTo(m, table, strings, low)
  {
  }

  lemma LongKept(m: seq<Byte>, n: seq<Byte>, a: nat)
    requires |m| == |n| && a + 4 <= |m| && forall b | a <= b < a + 4 :: n[b] == m[b]
    ensures Long(n, a) == Long(m, a)
  {
  }

  /** The strings are where the pages have gone. */
  lemma Shifted(area: seq<Byte>, user: seq<Byte>, shift: nat, p: nat, at: nat, strings: seq<seq<Byte>>)
    requires Holds(area, p, Flat(strings)) && at == shift + p
    requires Moved(area, user, shift, p)
    requires 4 * (|strings| + 1) <= shift && forall k | 0 <= k < |strings| :: NonZero(strings[k])
    ensures Row(user, 0, at, strings)
  {
    hide Flat, Size, NonZero, Holds, Moved;
    HoldsMoved(area, user, shift, p, Flat(strings));
  }

  /** From `m`, only the first `k` entries of the table have been written, each to point to its string. */
  predicate Filled(m: seq<Byte>, n: seq<Byte>, table: nat, p: nat, strings: seq<seq<Byte>>, k: nat)
    requires table + 4 * (|strings| + 1) <= |n| && k <= |strings|
  {
    && |m| == |n| && (forall j | 0 <= j < k :: Entry(n, table, j) == p + Size(strings[..j]))
    && (forall b | 0 <= b < |m| && !(table <= b < table + 4 * k) :: n[b] == m[b])
  }

  /** The strings are in a row above the table. */
  predicate Row(m: seq<Byte>, table: nat, p: nat, strings: seq<seq<Byte>>) {
    && table + 4 * (|strings| + 1) <= p && Holds(m, p, Flat(strings))
    && (forall k | 0 <= k < |strings| :: NonZero(strings[k]))
  }

  lemma NothingFilled(m: seq<Byte>, table: nat, p: nat, strings: seq<seq<Byte>>)
    requires table + 4 * (|strings| + 1) <= |m|
    ensures Filled(m, m, table, p, strings, 0) && Size(strings[..0]) == 0
  {
  }

  lemma FilledMore(m: seq<Byte>, a: seq<Byte>, b: seq<Byte>, table: nat, p: nat, strings: seq<seq<Byte>>, k: nat)
    requires Row(m, table, p, strings) && k < |strings| && |a| == |b| == |m| && Filled(m, a, table, p, strings, k)
    requires Entry(b, table, k) == p + Size(strings[..k])
    requires forall c | 0 <= c < |a| && !(table + 4 * k <= c < table + 4 * k + 4) :: b[c] == a[c]
    ensures Filled(m, b, table, p, strings, k + 1)
    ensures var q := p + Size(strings[..k]);
            && q + |strings[k]| < p + Size(strings) && HasNul(b, q) && CStr(b, q) == strings[k]
            && q + |strings[k]| + 1 == p + Size(strings[..k + 1])
  {
    hide Flat, Size, HasNul, CStr, NonZero;
    LongsKept(a, b, table, k);
    hide Entry;
    FlatKept(m, b, p, strings);
    FlatAt(b, p, strings, k);
    SizeNext(strings, k);
  }

  lemma FilledAll(m: seq<Byte>, a: seq<Byte>, b: seq<Byte>, table: nat, p: nat, strings: seq<seq<Byte>>)
    requires Row(m, table, p, strings) && |a| == |b| == |m| && Filled(m, a, table, p, strings, |strings|)
    requires Entry(b, table, |strings|) == 0
    requires forall c | 0 <= c < |a| && !(table + 4 * |strings| <= c < table + 4 * |strings| + 4) :: b[c] == a[c]
    ensures PointsTo(b, table, strings, p)
    ensures forall c | 0 <= c < |m| && !(table <= c < table + 4 * (|strings| + 1)) :: b[c] == m[c]
  {
    hide Flat, Size, HasNul, CStr, NonZero, PointsTo;
    LongsKept(a, b, table, |strings|);
    hide Entry;
    FlatKept(m, b, p, strings);
    TableDone(b, table, p, strings);
  }

  lemma LongsKept(m: seq<Byte>, n: seq<Byte>, table: nat, k: nat)
    requires table + 4 * k <= |m| == |n| && forall b | table <= b < table + 4 * k :: n[b] == m[b]
    ensures forall j | 0 <= j < k :: Entry(n, table, j) == Entry(m, table, j)
  {
  }

  lemma FlatKept(m: seq<Byte>, n: seq<Byte>, p: nat, strings: seq<seq<Byte>>)
    requires Holds(m, p, Flat(strings)) && |m| == |n| && forall b | p <= b < |m| :: n[b] == m[b]
    ensures Holds(n, p, Flat(strings))
  {
    HoldsMoved(m, n, 0, p, Flat(strings));
  }

  lemma TableDone(m: seq<Byte>, table: nat, p: nat, strings: seq<seq<Byte>>)
    requires Row(m, table, p, strings)
    requires forall k | 0 <= k < |strings| :: Entry(m, table, k) == p + Size(strings[..k])
    requires Entry(m, table, |strings|) == 0
    ensures PointsTo(m, table, strings, p)
  {
    hide Flat, Size, HasNul, CStr, Entry, NonZero, Row;
    RowFits(m, table, p, strings);
    forall k | 0 <= k < |strings|
      ensures HasNul(m, Entry(m, table, k)) && CStr(m, Entry(m, table, k)) == strings[k]
    {
      StringAt(m, table, p, strings, k);
    }
  }

  lemma RowFits(m: seq<Byte>, table: nat, p: nat, strings: seq<seq<Byte>>)
    requires Row(m, table, p, strings)
    ensures table + 4 * (|strings| + 1) <= |m|
  {
  }

  lemma StringAt(m: seq<Byte>, table: nat, p: nat, strings: seq<seq<Byte>>, k: nat)
    requires Row(m, table, p, strings) && k < |strings|
    ensures var q := p + Size(strings[..k]); HasNul(m, q) && CStr(m, q) == strings[k]
  {
    hide Flat, Size, HasNul, CStr, NonZero;
    FlatAt(m, p, strings, k);
  }

  /** Writing between a table and the strings leaves both as they are. */
  lemma PointsToKept(m: seq<Byte>, n: seq<Byte>, table: nat, strings: seq<seq<Byte>>, low: nat)
    requires |m| == |n| && table + 4 * (|strings| + 1) <= |m| && PointsTo(m, table, strings, low)
    requires forall b | 0 <= b < |m| && (table <= b < table + 4 * (|strings| + 1) || b >= low) :: n[b] == m[b]
    ensures PointsTo(n, table, strings, low)
  {
    LongsKept(m, n, table, |strings| + 1);
    forall k | 0 <= k < |strings|
      ensures HasNul(n, Entry(n, table, k)) && CStr(n, Entry(n, table, k)) == strings[k]
    {
      CStrKept(m, n, Entry(m, table, k));
    }
  }

  lemma JoinRight(a: seq<Byte>, b: seq<Byte>, r: nat, q: nat, p: nat)
    requires r <= q <= p <= |a| == |b| && a[q..] == b[q..]
    ensures a[r..p] == a[r..q] + b[q..p] && a[p..] == b[p..]
  {
    assert a[q..p] == a[q..][..p - q];
    assert b[q..p] == b[q..][..p - q];
    assert a[p..] == a[q..][p - q..];
    assert b[p..] == b[q..][p - q..];
  }

  lemma SizeTail(s: seq<seq<Byte>>, k: nat)
    requires k <= |s|
    ensures Size(s[k..]) <= Size(s)
  {
    assert s == s[..k] + s[k..];
    FlatAppend(s[..k], s[k..]);
  }
}
