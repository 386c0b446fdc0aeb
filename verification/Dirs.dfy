/** Directories (fs/namei.c) as sequences of entries, and as maps from names to inode numbers. */
module Dirs {
  import opened FsState

  const NAME_LEN := 14

  /** `name` is the 14 bytes of the entry. An entry without inode is free. */
  datatype Entry = Entry(inode: nat, name: seq<Byte>)

  predicate EntryOk(e: Entry) { |e.name| == NAME_LEN && e.inode < 0x1_0000 }

  predicate ValidName(name: seq<Byte>) {
    0 < |name| <= NAME_LEN && forall i | 0 <= i < |name| :: name[i] != 0
  }

  /** Names are cut to 14 bytes. */
  function Cut(name: seq<Byte>): seq<Byte> {
    if |name| > NAME_LEN then name[..NAME_LEN] else name
  }

  /** The bytes of an entry's name: zeros behind it. */
  function Pad(name: seq<Byte>): (p: seq<Byte>)
    requires |name| <= NAME_LEN
    ensures |p| == NAME_LEN
  {
    name + seq(NAME_LEN - |name|, _ => 0)
  }

  /** match */
  predicate Match(name: seq<Byte>, e: Entry)
    requires |e.name| == NAME_LEN
  {
    && e.inode != 0 && |name| <= NAME_LEN && (|name| < NAME_LEN ==> e.name[|name|] == 0)
    && e.name[..|name|] == name
  }

  /** The name that an entry shows: up to the first zero byte. */
  function Shown(bytes: seq<Byte>): seq<Byte> {
    if bytes == [] || bytes[0] == 0 then [] else [bytes[0]] + Shown(bytes[1..])
  }

  lemma {:induction false} ShownIs(bytes: seq<Byte>, name: seq<Byte>)
    requires forall i | 0 <= i < |name| :: name[i] != 0
    ensures Shown(bytes) == name <==> |name| <= |bytes| && bytes[..|name|] == name && (|name| < |bytes| ==> bytes[|name|] == 0)
    decreases |bytes|
  {
    if name == [] || bytes == [] {
    } else if bytes[0] == name[0] {
      ShownIs(bytes[1..], name[1..]);
      assert name == [name[0]] + name[1..];
      if |name| <= |bytes| { assert bytes[..|name|] == [bytes[0]] + bytes[1..][..|name[1..]|]; }
    } else if |name| <= |bytes| {
      assert bytes[..|name|][0] == bytes[0];
    }
  }

  /** match compares what the entry shows. */
  lemma MatchShown(name: seq<Byte>, e: Entry)
    requires EntryOk(e) && ValidName(name)
    ensures Match(name, e) <==> e.inode != 0 && Shown(e.name) == name
  {
    ShownIs(e.name, name);
  }

  lemma PadShown(name: seq<Byte>)
    requires ValidName(name)
    ensures Shown(Pad(name)) == name
  {
    ShownIs(Pad(name), name);
    assert Pad(name)[..|name|] == name;
  }

  predicate EntriesOk(es: seq<Entry>) {
    forall i | 0 <= i < |es| :: EntryOk(es[i])
  }

  /** The first entry with this name, or the end. */
  function Find(es: seq<Entry>, name: seq<Byte>): (k: nat)
    requires EntriesOk(es)
    ensures k <= |es| && (k < |es| ==> Match(name, es[k])) && forall i | 0 <= i < k :: !Match(name, es[i])
  {
    if es == [] then 0
    else
      var k := Find(es[..|es| - 1], name);
      if k < |es| - 1 then k else if Match(name, es[k]) then k else k + 1
  }

  /** The first free entry, or the end. */
  function FirstFree(es: seq<Entry>): (k: nat)
    ensures k <= |es| && (k < |es| ==> es[k].inode == 0) && forall i | 0 <= i < k :: es[i].inode != 0
  {
    if es == [] then 0
    else
      var k := FirstFree(es[..|es| - 1]);
      if k < |es| - 1 then k else if es[k].inode == 0 then k else k + 1
  }

  /** The inode number of a name; 0 when the directory does not have it. */
  function Lookup(es: seq<Entry>, name: seq<Byte>): nat
    requires EntriesOk(es)
  {
    if Find(es, name) < |es| then es[Find(es, name)].inode else 0
  }

  /** Entry `k` becomes `e`; the directory grows if that is its end. */
  function Put(es: seq<Entry>, k: nat, e: Entry): seq<Entry>
    requires k <= |es|
  {
    if k < |es| then es[k := e] else es + [e]
  }

  /** No two entries in use show the same name. */
  predicate Unique(es: seq<Entry>) {
    forall i, j | 0 <= i < |es| && 0 <= j < |es| && es[i].inode != 0 && es[j].inode != 0
                  && Shown(es[i].name) == Shown(es[j].name) ::
      i == j
  }

  lemma FindIs(es: seq<Entry>, name: seq<Byte>, k: nat)
    requires EntriesOk(es) && k < |es| && Match(name, es[k]) && forall i | 0 <= i < k :: !Match(name, es[i])
    ensures Find(es, name) == k
  {
  }

  /** With unique names, any entry that shows the name is the one found. */
  lemma LookupIs(es: seq<Entry>, name: seq<Byte>, k: nat)
    requires EntriesOk(es) && Unique(es) && ValidName(name) && k < |es| && es[k].inode != 0 && Shown(es[k].name) == name
    ensures Find(es, name) == k && Lookup(es, name) == es[k].inode
  {
    MatchShown(name, es[k]);
    forall i | 0 <= i < k ensures !Match(name, es[i]) { MatchShown(name, es[i]); }
  }

  lemma LookupNone(es: seq<Entry>, name: seq<Byte>)
    requires EntriesOk(es) && ValidName(name)
    ensures Lookup(es, name) == 0 <==> forall i | 0 <= i < |es| && es[i].inode != 0 :: Shown(es[i].name) != name
  {
    forall i | 0 <= i < |es| ensures Match(name, es[i]) <==> es[i].inode != 0 && Shown(es[i].name) == name {
      MatchShown(name, es[i]);
    }
  }

  /** Entering an absent name in a free place, without an inode at first, and then giving it its inode, changes what this
      name stands for and nothing else. */
  lemma Linked(es: seq<Entry>, k: nat, name: seq<Byte>, inode: nat, other: seq<Byte>)
    requires EntriesOk(es) && Unique(es) && k <= |es| && (k < |es| ==> es[k].inode == 0)
    requires ValidName(name) && ValidName(other) && Lookup(es, name) == 0 && inode < 0x1_0000
    ensures var t := Put(es, k, Entry(inode, Pad(name)));
            && EntriesOk(t) && Unique(t)
            && Lookup(t, other) == if other == name then inode else Lookup(es, other)
  {
    var t := Put(es, k, Entry(inode, Pad(name)));
    PadShown(name);
    LookupNone(es, name);
    assert forall i | 0 <= i < |t| && i != k :: t[i] == es[i];
    if inode != 0 && other == name {
      LookupIs(t, name, k);
    } else if Lookup(es, other) == 0 {
      LookupNone(es, other);
      LookupNone(t, other);
    } else {
      var j := Find(es, other);
      MatchShown(other, es[j]);
      LookupIs(t, other, j);
    }
  }

  /** Names stay unique if and only if the name that is entered was absent: a search that failed to read a block, followed by
      an add_entry that could read it, enters a name twice exactly when the directory has it. */
  lemma UniqueIff(es: seq<Entry>, k: nat, name: seq<Byte>, inode: nat)
    requires EntriesOk(es) && Unique(es) && k <= |es| && (k < |es| ==> es[k].inode == 0)
    requires ValidName(name) && 0 < inode < 0x1_0000
    ensures Unique(Put(es, k, Entry(inode, Pad(name)))) <==> Lookup(es, name) == 0
  {
    var t := Put(es, k, Entry(inode, Pad(name)));
    if Lookup(es, name) == 0 {
      Linked(es, k, name, inode, name);
    } else {
      var j := Find(es, name);
      MatchShown(name, es[j]);
      PadShown(name);
      assert t[j] == es[j] && t[k].name == Pad(name);
    }
  }

  /** Taking the inode away makes the name, and only this name, unknown. */
  lemma Unlinked(es: seq<Entry>, name: seq<Byte>, other: seq<Byte>)
    requires EntriesOk(es) && Unique(es) && ValidName(name) && ValidName(other) && Find(es, name) < |es|
    ensures var k := Find(es, name); var t := es[k := es[k].(inode := 0)];
            EntriesOk(t) && Unique(t) && Lookup(t, other) == if other == name then 0 else Lookup(es, other)
  {
    var k := Find(es, name);
    var t := es[k := es[k].(inode := 0)];
    MatchShown(name, es[k]);
    if other == name {
      LookupNone(t, name);
    } else if Lookup(es, other) == 0 {
      LookupNone(es, other);
      LookupNone(t, other);
    } else {
      var j := Find(es, other);
      MatchShown(other, es[j]);
      LookupIs(t, other, j);
    }
  }

  // ---------- Names byte by byte ----------

  /** The entry is in use, its bytes are those of the name up to the 14th, and it ends where a shorter name ends. */
  predicate Bears(e: Entry, name: seq<Byte>)
    requires EntryOk(e)
  {
    && e.inode != 0
    && (forall j | 0 <= j < 14 && j < |name| :: e.name[j] == name[j])
    && (|name| < 14 ==> e.name[|name|] == 0)
  }

  /** The 14 bytes that are stored for a name: its own, and zeros behind it. */
  predicate Spells(bytes: seq<Byte>, name: seq<Byte>) {
    |bytes| == 14 && forall j | 0 <= j < 14 :: bytes[j] == if j < |name| then name[j] else 0
  }

  /** The names agree on their first 14 bytes. */
  predicate Alike(a: seq<Byte>, b: seq<Byte>) {
    && (|a| < 14 || |b| < 14 ==> |a| == |b|)
    && forall j | 0 <= j < 14 && j < |a| && j < |b| :: a[j] == b[j]
  }

  lemma MatchBears(e: Entry, name: seq<Byte>)
    requires EntryOk(e)
    ensures Match(Cut(name), e) <==> Bears(e, name)
  {
    var c := Cut(name);
    if Bears(e, name) { assert e.name[..|c|] == c; }
    if Match(c, e) { assert forall j | 0 <= j < |c| :: e.name[j] == e.name[..|c|][j]; }
  }

  lemma PadSpells(name: seq<Byte>)
    ensures |Cut(name)| <= NAME_LEN && Spells(Pad(Cut(name)), name)
  {
  }

  lemma CutAlike(a: seq<Byte>, b: seq<Byte>)
    ensures Alike(a, b) <==> Cut(a) == Cut(b)
  {
    if Cut(a) == Cut(b) { assert forall j | 0 <= j < |Cut(a)| :: Cut(a)[j] == a[j] && Cut(b)[j] == b[j]; }
  }

  /** A search finds the first entry that bears the name. */
  lemma FindBears(es: seq<Entry>, name: seq<Byte>)
    requires EntriesOk(es)
    ensures var k := Find(es, Cut(name));
            (k < |es| ==> Bears(es[k], name)) && forall i | 0 <= i < k :: !Bears(es[i], name)
  {
    forall i | 0 <= i < |es| ensures Match(Cut(name), es[i]) <==> Bears(es[i], name) { MatchBears(es[i], name); }
  }

  // ---------- The map ----------

  /** The entries stand for the map `m`. */
  ghost predicate StandsFor(es: seq<Entry>, m: map<seq<Byte>, nat>) {
    && EntriesOk(es) && Unique(es)
    && (forall name | name in m :: ValidName(name) && m[name] != 0)
    && (forall name | ValidName(name) :: Lookup(es, name) == if name in m then m[name] else 0)
  }

  lemma LinkMap(es: seq<Entry>, m: map<seq<Byte>, nat>, name: seq<Byte>, inode: nat)
    requires StandsFor(es, m) && ValidName(name) && name !in m && inode < 0x1_0000
    ensures var t := Put(es, FirstFree(es), Entry(inode, Pad(name)));
            if inode == 0 then StandsFor(t, m) else StandsFor(t, m[name := inode])
  {
    hide Unique, Lookup, Put, EntriesOk;
    var t := Put(es, FirstFree(es), Entry(inode, Pad(name)));
    Linked(es, FirstFree(es), name, inode, name);
    forall other | ValidName(other)
      ensures Lookup(t, other) == if other == name then inode else if other in m then m[other] else 0
    {
      Linked(es, FirstFree(es), name, inode, other);
    }
  }

  lemma UnlinkMap(es: seq<Entry>, m: map<seq<Byte>, nat>, name: seq<Byte>)
    requires StandsFor(es, m) && ValidName(name) && name in m
    ensures Find(es, name) < |es|
    ensures StandsFor(es[Find(es, name) := es[Find(es, name)].(inode := 0)], m - {name})
  {
    FoundIn(es, m, name);
    hide Unique, Lookup, Find, EntriesOk, ValidName;
    var t := es[Find(es, name) := es[Find(es, name)].(inode := 0)];
    forall other | ValidName(other)
      ensures EntriesOk(t) && Unique(t) && Lookup(t, other) == if other in m - {name} then m[other] else 0
    {
      Unlinked(es, name, other);
    }
    assert ValidName(name);
  }

  lemma FoundIn(es: seq<Entry>, m: map<seq<Byte>, nat>, name: seq<Byte>)
    requires StandsFor(es, m) && ValidName(name)
    ensures Find(es, name) < |es| <==> name in m
    ensures name in m ==> es[Find(es, name)].inode == m[name]
  {
    hide Unique, ValidName;
    assert Lookup(es, name) == if name in m then m[name] else 0;
  }
}
