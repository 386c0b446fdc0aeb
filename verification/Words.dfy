/** Machine words of the i386, with the two-level page-table entry layout read by arithmetic. */
module Words {
  const WORD_LIMIT := 0x1_0000_0000

  /** A 32-bit `unsigned long`. */
  type Word = w: int | 0 <= w < WORD_LIMIT

  /** The contents of one 4096-byte page frame, as 1024 words. */
  type Page = p: seq<Word> | |p| == 1024 witness seq(1024, _ => 0)

  function ZeroPage(): (p: Page)
  {
    seq(1024, _ => 0)
  }

  /** Bit 0 of a page-table entry. */
  predicate Present(w: Word) { w % 2 == 1 }

  /** Bit 1 of a page-table entry. */
  predicate Writable(w: Word) { w / 2 % 2 == 1 }

  /** Bits 12-31: the physical frame number. */
  function FrameOf(w: Word): nat { w / 4096 }

  /** `w & ~2` */
  function WriteProtect(w: Word): Word { if Writable(w) then w - 2 else w }

  /** `w | 2` */
  function Grant(w: Word): Word { if Writable(w) then w else w + 2 }

  /** `page | 7`, for a page address that is a multiple of 4096. */
  function UserEntry(frame: nat): Word
    requires frame < 0x10_0000
  {
    frame * 4096 + 7
  }

  lemma WriteProtectKeeps(w: Word)
    ensures Present(WriteProtect(w)) == Present(w)
    ensures FrameOf(WriteProtect(w)) == FrameOf(w)
    ensures !Writable(WriteProtect(w))
  {
    assert w == 4 * (w / 4) + w % 4;
  }

  lemma GrantKeeps(w: Word)
    ensures Present(Grant(w)) == Present(w)
    ensures FrameOf(Grant(w)) == FrameOf(w)
    ensures Writable(Grant(w))
  {
    assert w == 4 * (w / 4) + w % 4;
  }

  lemma UserEntryDecodes(frame: nat)
    requires frame < 0x10_0000
    ensures Present(UserEntry(frame)) && Writable(UserEntry(frame)) && FrameOf(UserEntry(frame)) == frame
  {
    var w: int := 4096 * frame + 7;
    assert w == 2 * (2048 * frame + 3) + 1 && w / 2 == 2048 * frame + 3;
    assert 2048 * frame + 3 == 2 * (1024 * frame + 1) + 1;
    assert w / 4096 == frame;
  }

  /** The bits of a page-table entry: bit 0 present, bit 1 writable, bit 2 user, and the frame from bit 12 on. */
  lemma EntryBits(frame: nat, flags: nat, user: nat, write: nat, present: nat)
    requires frame < 0x10_0000 && flags < 0x200 && user < 2 && write < 2 && present < 2
    ensures var w := 0x1000 * frame + 8 * flags + 4 * user + 2 * write + present;
            && w < WORD_LIMIT && (Present(w) <==> present == 1) && (Writable(w) <==> write == 1) && FrameOf(w) == frame
            && WriteProtect(w) == w - 2 * write && Grant(w) == w + 2 * (1 - write)
  {
    var low := 8 * flags + 4 * user + 2 * write + present;
    var rest := 0x400 * frame + 2 * flags + user;
    var w, half := 0x1000 * frame + low, 2 * rest + write;
    Halves(half, present);
    Halves(rest, write);
    Frames(frame, low);
    assert w == 2 * half + present;
    hide *;
    BitsAre(w, frame, write, present, half);
  }

  lemma Halves(q: nat, r: nat)
    requires r < 2
    ensures (2 * q + r) / 2 == q && (2 * q + r) % 2 == r
  {
  }

  lemma Frames(q: nat, r: nat)
    requires r < 0x1000
    ensures (0x1000 * q + r) / 4096 == q
  {
  }

  lemma BitsAre(w: nat, frame: nat, write: nat, present: nat, half: nat)
    requires w < WORD_LIMIT && w / 2 == half && w % 2 == present && half % 2 == write && w / 4096 == frame && w >= 2 * write
    requires w + 2 * (1 - write) < WORD_LIMIT
    ensures (Present(w) <==> present == 1) && (Writable(w) <==> write == 1) && FrameOf(w) == frame
    ensures WriteProtect(w) == w - 2 * write && Grant(w) == w + 2 * (1 - write)
  {
  }
}
