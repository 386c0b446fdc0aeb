/** kernel/console.c: the screen as a moving window in video memory. Addresses are byte addresses, as in the source;
    every cell is two bytes. */
module Console {
  import opened Terminal

  const SCREEN_START := 0xb8000
  const SCREEN_END := 0xc0000
  const VIDEO_CELLS := 16384
  const ROW := 160       // columns << 1

  class Screen {
    const video: array<nat>     // the cells of video memory
    const par: array<nat>
    var origin: nat             // address of the first cell of the screen
    var scrEnd: nat
    var pos: nat                // address of the cursor
    var x: nat
    var y: nat
    var top: nat
    var bottom: nat
    var state: nat
    var npar: nat
    var ques: bool
    var attr: nat
    var savedX: nat
    var savedY: nat
    var replies: nat            // answers put in the keyboard queue
    ghost var strays: nat       // stores that were not on the screen

    ghost predicate Valid()
      reads this, par
    {
      && video.Length == VIDEO_CELLS && par.Length == NPAR && par != video
      && SCREEN_START <= origin && origin % 2 == 0
      && scrEnd == origin + 2 * CELLS <= SCREEN_END
      && pos == origin + 2 * (COLUMNS * y + x)
      && x <= COLUMNS && y < LINES && top < bottom <= LINES
      && state <= 3 && npar < NPAR && (forall i | 0 <= i < NPAR :: par[i] < UINT)
      && savedX <= COLUMNS && savedY < LINES
    }

    /** The first cell of the window, as an index into video memory. */
    ghost function Base(): nat
      requires Valid()
      reads this, par
    {
      (origin - SCREEN_START) / 2
    }

    ghost function Grid(): (g: seq<Cell>)
      requires Valid()
      reads this, par, video
      ensures |g| == CELLS
    {
      video[Base()..Base() + CELLS]
    }

    /** What the user sees. */
    ghost function Abs(): (t: Term)
      requires Valid()
      reads this, par, video
      ensures TermOk(t) && t.grid == Grid() && t.x == x && t.y == y
    {
      Term(Grid(), x, y, top, bottom, attr, state, npar, par[..], ques, savedX, savedY, replies)
    }

    /** Every store was inside the window. */
    twostate predicate Confined()
      requires old(Valid()) && Valid()
      reads this, par, video
    {
      forall c | 0 <= c < VIDEO_CELLS && !(Base() <= c < Base() + CELLS) :: video[c] == old(video[c])
    }

    /** The first cell of the screen. While the window reaches past the end of video memory, it is the screen to be, at the
        start of video memory. */
    ghost function Screen0(): int
      reads this
    {
      if scrEnd > SCREEN_END then 0 else (origin - SCREEN_START) / 2
    }

    ghost predicate OnScreen(first: nat, count: nat)
      reads this
    {
      Screen0() <= first && first + count <= Screen0() + CELLS
    }

    /** A store to video memory; it is noted when it misses the screen. */
    method Put(c: nat, cell: nat)
      requires c < video.Length
      modifies video, this`strays
      ensures video[..] == old(video[..])[c := cell] && video[c] == cell
      ensures forall d {:trigger video[d]} | 0 <= d < video.Length && d != c :: video[d] == old(video[d])
      ensures strays == old(strays) + if OnScreen(c, 1) then 0 else 1
    {
      if !OnScreen(c, 1) { strays := strays + 1; }
      video[c] := cell;
    }

    /** con_init: the screen as it is found at boot, the cursor where the BIOS left it, if and only if that is on the screen.
        Otherwise the cursor keeps address 0, which is not in video memory. */
    constructor (cells: seq<nat>, startX: nat, startY: nat)
      requires |cells| == VIDEO_CELLS
      ensures fresh(video) && fresh(par) && strays == 0
      ensures Valid() <==> startX < COLUMNS && startY < LINES
      ensures Valid() ==>
                Abs() == Term(cells[..CELLS], startX, startY, 0, LINES, 0x07, 0, 0, seq(NPAR, _ => 0), false, 0, 0, 0)
      ensures !Valid() ==> x == 0 && y == 0 && pos == 0 < SCREEN_START
    {
      video := new nat[VIDEO_CELLS](i requires 0 <= i < VIDEO_CELLS => cells[i]);
      par := new nat[NPAR](_ => 0);
      origin, scrEnd := SCREEN_START, SCREEN_START + 2 * CELLS;
      var onScreen := startX < COLUMNS && startY < LINES;
      x := if onScreen then startX else 0;
      y := if onScreen then startY else 0;
      pos := if onScreen then SCREEN_START + 2 * (COLUMNS * startY + startX) else 0;
      top, bottom, state, npar, ques, attr := 0, LINES, 0, 0, false, 0x07;
      savedX, savedY, replies, strays := 0, 0, 0, 0;
    }

    // ---------- The string instructions ----------

    /** `rep movsl`, upwards: `count` cells from `src` to the lower `dst`. */
    method MoveUp(dst: nat, src: nat, count: nat)
      requires dst <= src && src + count <= video.Length && OnScreen(dst, count)
      modifies video, this`strays
      ensures strays == old(strays) && CellsMoved(old(video[..]), video[..], dst, src, count)
    {
      var i := 0;
      while i < count
        invariant 0 <= i <= count && strays == old(strays)
        invariant forall c {:trigger video[c]} | 0 <= c < video.Length ::
                    video[c] == if dst <= c < dst + i then old(video[c - dst + src]) else old(video[c])
      {
        Put(dst + i, video[src + i]);
        i := i + 1;
      }
    }

    /** `std; rep movsl`: `count` cells from `src` to the higher `dst`, last cell first. */
    method MoveDown(dst: nat, src: nat, count: nat)
      requires src <= dst && dst + count <= video.Length && OnScreen(dst, count)
      modifies video, this`strays
      ensures strays == old(strays) && CellsMoved(old(video[..]), video[..], dst, src, count)
    {
      var i := count;
      while i > 0
        invariant 0 <= i <= count && strays == old(strays)
        invariant forall c {:trigger video[c]} | 0 <= c < video.Length ::
                    video[c] == if dst + i <= c < dst + count then old(video[c - dst + src]) else old(video[c])
      {
        i := i - 1;
        Put(dst + i, video[src + i]);
      }
    }

    /** `rep stosw` of blanks. */
    method Fill(dst: nat, count: nat)
      requires dst + count <= video.Length && OnScreen(dst, count)
      modifies video, this`strays
      ensures strays == old(strays) && CellsBlanked(old(video[..]), video[..], dst, count)
    {
      var i := 0;
      while i < count
        invariant 0 <= i <= count && strays == old(strays)
        invariant forall c {:trigger video[c]} | 0 <= c < video.Length ::
                    video[c] == if dst <= c < dst + i then BLANK else old(video[c])
      {
        Put(dst + i, BLANK);
        i := i + 1;
      }
    }

    // ---------- Scrolling ----------

    /** Moves lines `top + 1`.. up by one and blanks line `bottom - 1`, in the window at `base`. */
    method LinesUp(base: nat, first: nat, last: nat)
      requires base + CELLS <= video.Length && first < last <= LINES && base == Screen0()
      modifies video, this`strays
      ensures strays == old(strays)
      ensures video[base..base + CELLS] == RollUp(old(video[base..base + CELLS]), first, last, 1)
      ensures SameOutside(old(video[..]), video[..], base)
    {
      hide RollUp, CellsMoved, CellsBlanked, SameOutside;
      ghost var v := video[..];
      var from, to := base + COLUMNS * first, base + COLUMNS * last;
      MoveUp(from, from + COLUMNS, to - COLUMNS - from);
      ghost var w := video[..];
      Fill(to - COLUMNS, COLUMNS);
      LinesRolledUp(v, w, video[..], base, first, last, from, to);
    }

    method LinesDown(base: nat, first: nat, last: nat)
      requires base + CELLS <= video.Length && first < last <= LINES && base == Screen0()
      modifies video, this`strays
      ensures strays == old(strays)
      ensures video[base..base + CELLS] == RollDown(old(video[base..base + CELLS]), first, last, 1)
      ensures SameOutside(old(video[..]), video[..], base)
    {
      hide RollDown, CellsMoved, CellsBlanked, SameOutside;
      ghost var v := video[..];
      var from, to := base + COLUMNS * first, base + COLUMNS * last;
      MoveDown(from + COLUMNS, from, to - COLUMNS - from);
      ghost var w := video[..];
      Fill(from, COLUMNS);
      LinesRolledDown(v, w, video[..], base, first, last, from, to);
    }

    /** `scrup`. A full-screen scroll moves the window; at the end of video memory the lines are copied back to
        its start. Otherwise the lines of the region are moved. All three look the same to the user. */
    method ScrUp()
      requires Valid()
      modifies this`origin, this`pos, this`scrEnd, video, this`strays
      ensures strays == old(strays)
      ensures Valid() && Confined()
      ensures Abs() == old(Abs()).(grid := RollUp(old(Grid()), top, bottom, 1))
    {
      if top == 0 && bottom == LINES {
        ScrollWindow();
      } else {
        hide RollUp;
        LinesUp((origin - SCREEN_START) / 2, top, bottom);
      }
    }

    method ScrollWindow()
      requires Valid() && top == 0 && bottom == LINES
      modifies this`origin, this`pos, this`scrEnd, this`strays, video
      ensures Valid() && Confined() && strays == old(strays)
      ensures Abs() == old(Abs()).(grid := RollUp(old(Grid()), 0, LINES, 1))
    {
      hide RollUp;
      ghost var base := Base();
      origin := origin + ROW;
      pos := pos + ROW;
      scrEnd := scrEnd + ROW;
      if scrEnd > SCREEN_END {
        CopyBack(base, (origin - SCREEN_START) / 2);
        scrEnd := scrEnd - (origin - SCREEN_START);
        pos := pos - (origin - SCREEN_START);
        origin := SCREEN_START;
      } else {
        BlankLine(base, (scrEnd - ROW - SCREEN_START) / 2);
      }
    }

    /** Only the line that comes into view is written. */
    method BlankLine(ghost base: nat, line: nat)
      requires base + COLUMNS + CELLS <= video.Length && line == base + CELLS && Screen0() == base + COLUMNS
      modifies video, this`strays
      ensures strays == old(strays)
      ensures video[base + COLUMNS..base + COLUMNS + CELLS] == RollUp(old(video[base..base + CELLS]), 0, LINES, 1)
      ensures SameOutside(old(video[..]), video[..], base + COLUMNS)
    {
      hide RollUp, CellsBlanked, SameOutside;
      ghost var v := video[..];
      Fill(line, COLUMNS);
      LineShown(v, video[..], base);
    }

    /** The lines from `src` on, all of the window but the first, go to the start of video memory. */
    method CopyBack(ghost base: nat, src: nat)
      requires base + CELLS <= video.Length && CELLS + COLUMNS <= video.Length && src == base + COLUMNS && Screen0() == 0
      modifies video, this`strays
      ensures strays == old(strays)
      ensures video[0..CELLS] == RollUp(old(video[base..base + CELLS]), 0, LINES, 1)
      ensures SameOutside(old(video[..]), video[..], 0)
    {
      hide RollUp, CellsMoved, CellsBlanked, SameOutside;
      ghost var v := video[..];
      MoveUp(0, src, (LINES - 1) * COLUMNS);
      ghost var w := video[..];
      Fill((LINES - 1) * COLUMNS, COLUMNS);
      CopiedBack(v, w, video[..], base);
    }

    /** `scrdown` */
    method ScrDown()
      requires Valid()
      modifies video, this`strays
      ensures strays == old(strays)
      ensures Valid() && Confined()
      ensures Abs() == old(Abs()).(grid := RollDown(old(Grid()), top, bottom, 1))
    {
      hide RollDown;
      LinesDown((origin - SCREEN_START) / 2, top, bottom);
    }

    // ---------- Cursor movement ----------

    method GotoXY(newX: nat, newY: nat)
      requires Valid()
      modifies this`x, this`y, this`pos
      ensures Valid() && Abs() == Goto(old(Abs()), newX, newY)
    {
      if newX >= COLUMNS || newY >= LINES { return; }
      x, y := newX, newY;
      pos := origin + 2 * (y * COLUMNS + x);
    }

    method Lf()
      requires Valid()
      modifies this`origin, this`pos, this`scrEnd, this`y, video, this`strays
      ensures strays == old(strays)
      ensures Valid() && Confined() && Abs() == LineFeed(old(Abs()))
    {
      hide RollUp;
      if y + 1 < bottom {
        y := y + 1;
        pos := pos + ROW;
        return;
      }
      ScrUp();
    }

    method Ri()
      requires Valid()
      modifies this`pos, this`y, video, this`strays
      ensures strays == old(strays)
      ensures Valid() && Confined() && Abs() == ReverseFeed(old(Abs()))
    {
      hide RollDown;
      if y > top {
        y := y - 1;
        pos := pos - ROW;
        return;
      }
      ScrDown();
    }

    method Cr()
      requires Valid()
      modifies this`x, this`pos
      ensures Valid() && Abs() == old(Abs()).(x := 0)
    {
      pos := pos - 2 * x;
      x := 0;
    }

    /** A store to the cell at the cursor. */
    method StoreHere(cell: nat)
      requires Valid() && x < COLUMNS
      modifies video, this`strays
      ensures strays == old(strays)
      ensures Valid() && Confined() && Grid() == old(Grid())[COLUMNS * y + x := cell]
    {
      ghost var v := video[..];
      Put((pos - SCREEN_START) / 2, cell);
      CellStored(v, video[..], Base(), COLUMNS * y + x, cell);
    }

    method Del()
      requires Valid()
      modifies this`x, this`pos, video, this`strays
      ensures strays == old(strays)
      ensures Valid() && Confined() && Abs() == Rubout(old(Abs()))
    {
      if x > 0 {
        pos := pos - 2;
        x := x - 1;
        StoreHere(BLANK);
      }
    }

    method SaveCur()
      requires Valid()
      modifies this`savedX, this`savedY
      ensures Valid() && Abs() == SaveCursor(old(Abs()))
    {
      savedX, savedY := x, y;
    }

    method RestoreCur()
      requires Valid()
      modifies this`x, this`y, this`pos
      ensures Valid() && Abs() == RestoreCursor(old(Abs()))
    {
      x, y := savedX, savedY;
      pos := origin + 2 * (y * COLUMNS + x);
    }

    // ---------- Erasing ----------

    /** Blanks `count` cells from address `start`. */
    method Blank(start: nat, count: nat)
      requires Valid() && start >= origin && start % 2 == 0 && start + 2 * count <= scrEnd
      modifies video, this`strays
      ensures strays == old(strays)
      ensures Valid() && Confined()
      ensures Grid() == Erase(old(Grid()), (start - origin) / 2, (start - origin) / 2 + count)
    {
      Fill((start - SCREEN_START) / 2, count);
    }

    method CsiJ(p: nat)
      requires Valid()
      modifies video, this`strays
      ensures strays == old(strays)
      ensures Valid() && Confined() && Abs() == EraseDisplay(old(Abs()), p)
    {
      var count, start;
      if p == 0 { count, start := (scrEnd - pos) / 2, pos; }
      else if p == 1 { count, start := (pos - origin) / 2, origin; }
      else if p == 2 { count, start := COLUMNS * LINES, origin; }
      else { return; }
      hide Erase;
      Blank(start, count);
    }

    method CsiK(p: nat)
      requires Valid()
      modifies video, this`strays
      ensures strays == old(strays)
      ensures Valid() && Confined() && Abs() == EraseLine(old(Abs()), p)
    {
      var count, start;
      if p == 0 {
        if x >= COLUMNS {
          assert Grid() == Erase(Grid(), COLUMNS * y + x, COLUMNS * y + COLUMNS);
          return;
        }
        count, start := COLUMNS - x, pos;
      } else if p == 1 {
        start := pos - 2 * x;
        count := if x < COLUMNS then x else COLUMNS;
      } else if p == 2 {
        start := pos - 2 * x;
        count := COLUMNS;
      } else {
        return;
      }
      hide Erase;
      Blank(start, count);
    }

    // ---------- Inserting and deleting ----------

    /** `insert_char`: carries each cell over to the next, up to the end of the line. */
    method InsertChar()
      requires Valid()
      modifies video, this`strays
      ensures strays == old(strays)
      ensures Valid() && Confined() && Abs() == old(Abs()).(grid := Open(old(Grid()), x, y, 1))
    {
      ghost var v := video[..];
      var p := (pos - SCREEN_START) / 2;
      ShiftRight(p, x);
      LineOpened(v, video[..], Base(), x, y);
    }

    method ShiftRight(start: nat, column: nat)
      requires column <= COLUMNS && start + (COLUMNS - column) <= video.Length && OnScreen(start, COLUMNS - column)
      modifies video, this`strays
      ensures strays == old(strays)
      ensures forall c {:trigger video[c]} | 0 <= c < video.Length ::
                video[c] == if start <= c < start + (COLUMNS - column)
                            then (if c == start then BLANK else old(video[c - 1])) else old(video[c])
    {
      var i, carried, p := column, BLANK, start;
      while i < COLUMNS
        invariant column <= i <= COLUMNS && p == start + (i - column) && strays == old(strays)
        invariant i == column ==> carried == BLANK
        invariant i > column ==> carried == old(video[p - 1])
        invariant forall c {:trigger video[c]} | 0 <= c < video.Length ::
                    video[c] == if start <= c < p then (if c == start then BLANK else old(video[c - 1])) else old(video[c])
      {
        var tmp := video[p];
        Put(p, carried);
        carried := tmp;
        p := p + 1;
        i := i + 1;
      }
    }

    /** `delete_char` */
    method DeleteChar()
      requires Valid()
      modifies video, this`strays
      ensures strays == old(strays)
      ensures Valid() && Confined() && Abs() == old(Abs()).(grid := Close(old(Grid()), x, y, 1))
    {
      ghost var v := video[..];
      if x < COLUMNS {
        ShiftLeft((pos - SCREEN_START) / 2, x);
      }
      LineClosed(v, video[..], Base(), x, y);
    }

    method ShiftLeft(start: nat, column: nat)
      requires column < COLUMNS && start + (COLUMNS - column) <= video.Length && OnScreen(start, COLUMNS - column)
      modifies video, this`strays
      ensures strays == old(strays)
      ensures forall c {:trigger video[c]} | 0 <= c < video.Length ::
                video[c] == if start <= c < start + (COLUMNS - column)
                            then (if c + 1 == start + (COLUMNS - column) then BLANK else old(video[c + 1]))
                            else old(video[c])
    {
      var i, p := column, start;
      while i + 1 < COLUMNS
        invariant column <= i < COLUMNS && p == start + (i - column) && strays == old(strays)
        invariant forall c {:trigger video[c]} | 0 <= c < video.Length ::
                    video[c] == if start <= c < p then old(video[c + 1]) else old(video[c])
      {
        Put(p, video[p + 1]);
        p := p + 1;
        i := i + 1;
      }
      Put(p, BLANK);
    }

    /** `insert_line` and `delete_line` scroll from the cursor's line to the end of the screen. */
    method InsertLine()
      requires Valid()
      modifies this`top, this`bottom, video, this`strays
      ensures strays == old(strays)
      ensures Valid() && Confined() && Abs() == old(Abs()).(grid := RollDown(old(Grid()), y, LINES, 1))
    {
      var oldTop, oldBottom := top, bottom;
      top, bottom := y, LINES;
      hide RollDown;
      ScrDown();
      top, bottom := oldTop, oldBottom;
    }

    method DeleteLine()
      requires Valid()
      modifies this`top, this`bottom, this`origin, this`pos, this`scrEnd, video, this`strays
      ensures strays == old(strays)
      ensures Valid() && Confined() && Abs() == old(Abs()).(grid := RollUp(old(Grid()), y, LINES, 1))
    {
      var oldTop, oldBottom := top, bottom;
      top, bottom := y, LINES;
      hide RollUp;
      ScrUp();
      top, bottom := oldTop, oldBottom;
    }

    method CsiAt(p: nat)
      requires Valid()
      modifies video, this`strays
      ensures strays == old(strays)
      ensures Valid() && Abs() == old(Abs()).(grid := Open(old(Grid()), x, y, Count(p, COLUMNS)))
    {
      var n := if p > COLUMNS then COLUMNS else if p == 0 then 1 else p;
      assert n == Count(p, COLUMNS);
      var k := 0;
      ghost var t := Abs();
      assert COLUMNS == 80 && y < LINES == 25 && x <= COLUMNS;
      OpenMore(t.grid, x, y, 0);
      hide *;
      while k < n
        invariant 0 <= k <= n && Valid() && strays == old(strays) && Abs() == t.(grid := Open(t.grid, x, y, k))
      {
        OpenMore(t.grid, x, y, k);
        InsertChar();
        k := k + 1;
      }
    }

    method CsiP(p: nat)
      requires Valid()
      modifies video, this`strays
      ensures strays == old(strays)
      ensures Valid() && Abs() == old(Abs()).(grid := Close(old(Grid()), x, y, Count(p, COLUMNS)))
    {
      var n := if p > COLUMNS then COLUMNS else if p == 0 then 1 else p;
      assert n == Count(p, COLUMNS);
      var k := 0;
      ghost var t := Abs();
      assert COLUMNS == 80 && y < LINES == 25 && x <= COLUMNS;
      CloseMore(t.grid, x, y, 0);
      hide *;
      while k < n
        invariant 0 <= k <= n && Valid() && strays == old(strays) && Abs() == t.(grid := Close(t.grid, x, y, k))
      {
        CloseMore(t.grid, x, y, k);
        DeleteChar();
        k := k + 1;
      }
    }

    method CsiL(p: nat)
      requires Valid()
      modifies this`top, this`bottom, video, this`strays
      ensures strays == old(strays)
      ensures Valid() && Abs() == old(Abs()).(grid := RollDown(old(Grid()), y, LINES, Count(p, LINES)))
    {
      hide RollDown;
      var n := if p > LINES then LINES else if p == 0 then 1 else p;
      assert n == Count(p, LINES);
      var k := 0;
      ghost var t := Abs();
      assert LINES == 25 && y < LINES;
      RollDownMore(t.grid, y, LINES, 0);
      hide *;
      while k < n
        invariant 0 <= k <= n && Valid() && strays == old(strays) && Abs() == t.(grid := RollDown(t.grid, y, LINES, k))
      {
        RollDownMore(t.grid, y, LINES, k);
        InsertLine();
        k := k + 1;
      }
    }

    method CsiM(p: nat)
      requires Valid()
      modifies this`top, this`bottom, this`origin, this`pos, this`scrEnd, video, this`strays
      ensures strays == old(strays)
      ensures Valid() && Abs() == old(Abs()).(grid := RollUp(old(Grid()), y, LINES, Count(p, LINES)))
    {
      hide RollUp;
      var n := if p > LINES then LINES else if p == 0 then 1 else p;
      assert n == Count(p, LINES);
      var k := 0;
      ghost var t := Abs();
      assert LINES == 25 && y < LINES;
      RollUpMore(t.grid, y, LINES, 0);
      hide *;
      while k < n
        invariant 0 <= k <= n && Valid() && strays == old(strays) && Abs() == t.(grid := RollUp(t.grid, y, LINES, k))
      {
        RollUpMore(t.grid, y, LINES, k);
        DeleteLine();
        k := k + 1;
      }
    }

    /** `csi_m`: the parameters in order, each overriding those before it. */
    method CsiColour()
      requires Valid()
      modifies this`attr
      ensures Valid() && Abs() == old(Abs()).(attr := Colour(old(attr), par[..npar + 1]))
    {
      var i := 0;
      while i <= npar
        invariant 0 <= i <= npar + 1
        invariant attr == Colour(old(attr), par[..i])
      {
        assert par[..i + 1][..i] == par[..i];
        match par[i] {
          case 0 => attr := 0x07;
          case 1 => attr := 0x0f;
          case 4 => attr := 0x0f;
          case 7 => attr := 0x70;
          case 27 => attr := 0x07;
          case _ =>
        }
        i := i + 1;
      }
    }

    // ---------- The escape-sequence parser ----------

    /** Writes a character at the cursor, first going on to the next line if the cursor is past the edge. */
    method PrintChar(c: Byte)
      requires Valid()
      modifies this`origin, this`pos, this`scrEnd, this`x, this`y, video, this`strays
      ensures strays == old(strays)
      ensures Valid() && Confined() && Abs() == Print(old(Abs()), c)
    {
      hide RollUp, WrapLine;
      if x >= COLUMNS {
        WrapToNext();
      }
      PutCell(256 * attr + c);
    }

    method PutCell(cell: nat)
      requires Valid() && x < COLUMNS
      modifies this`pos, this`x, video, this`strays
      ensures strays == old(strays)
      ensures Valid() && Confined()
      ensures Abs() == old(Abs()).(grid := old(Grid())[COLUMNS * y + old(x) := cell], x := old(x) + 1)
    {
      StoreHere(cell);
      pos := pos + 2;
      x := x + 1;
    }

    method WrapToNext()
      requires Valid() && x >= COLUMNS
      modifies this`origin, this`pos, this`scrEnd, this`x, this`y, video, this`strays
      ensures strays == old(strays)
      ensures Valid() && Confined() && Abs() == WrapLine(old(Abs())) && x < COLUMNS
    {
      x := x - COLUMNS;
      pos := pos - 2 * COLUMNS;
      hide RollUp;
      Lf();
    }

    method TabStop()
      requires Valid()
      modifies this`origin, this`pos, this`scrEnd, this`x, this`y, video, this`strays
      ensures strays == old(strays)
      ensures Valid() && Confined() && Abs() == Tab(old(Abs()))
    {
      var c := 8 - x % 8;
      if x + c > COLUMNS {
        x := x + c - COLUMNS;
        pos := pos + 2 * c - 2 * COLUMNS;
        hide RollUp;
        Lf();
      } else {
        x := x + c;
        pos := pos + 2 * c;
      }
    }

    /** State 0 of `con_write`. */
    method PlainChar(c: int, erase: Byte)
      requires Valid() && -128 <= c < 128
      modifies this, video
      ensures strays == old(strays)
      ensures Valid() && Abs() == Plain(old(Abs()), c, erase)
    {
      hide RollUp, RollDown, LineFeed, Print, Rubout, Tab;
      if 31 < c < 127 { PrintChar(c); }
      else if c == 27 { state := 1; }
      else if c == 10 || c == 11 || c == 12 { Lf(); }
      else if c == 13 { Cr(); }
      else if c == erase { Del(); }
      else if c == 8 {
        if x > 0 { x := x - 1; pos := pos - 2; }
      }
      else if c == 9 { TabStop(); }
    }

    /** State 1: after ESC. */
    method EscapeChar(c: int)
      requires Valid()
      modifies this, video
      ensures strays == old(strays)
      ensures Valid() && Abs() == Escape(old(Abs()), c)
    {
      hide Escape, EscapeRest, LineFeed, ReverseFeed, Goto;
      AfterEscape(Abs(), c);
      if c == '[' as int {
        state := 2;
        return;
      }
      state := 0;
      if c == 'E' as int { GotoXY(0, y + 1); }
      else if c == 'M' as int { Ri(); }
      else if c == 'D' as int { Lf(); }
      else { EscapeOther(c); }
    }

    method EscapeOther(c: int)
      requires Valid()
      modifies this`x, this`y, this`pos, this`savedX, this`savedY, this`replies
      ensures Valid() && Abs() == EscapeRest(old(Abs()), c)
    {
      hide SaveCursor, RestoreCursor;
      if c == 'Z' as int { replies := replies + 1; }
      else if x == '7' as int { SaveCur(); }
      else if x == '8' as int { RestoreCur(); }
    }

    /** States 2 and 3: collecting parameters. */
    method ParameterChar(c: int, begin: bool)
      requires Valid()
      modifies this, video, par
      ensures strays == old(strays)
      ensures Valid()
      ensures Abs() == if begin then Start(old(Abs()), c) else Parameter(old(Abs()), c)
    {
      hide Parameter;
      if begin {
        ClearParameters(c == '?' as int);
        if c == '?' as int { return; }
      }
      Collect(c);
    }

    method Collect(c: int)
      requires Valid()
      modifies this, video, par
      ensures strays == old(strays)
      ensures Valid() && Abs() == Parameter(old(Abs()), c)
    {
      hide Control;
      if c == ';' as int && npar < NPAR - 1 {
        state := 3;
        npar := npar + 1;
      } else if '0' as int <= c <= '9' as int {
        state := 3;
        par[npar] := (10 * par[npar] + (c - '0' as int)) % UINT;
      } else {
        state := 0;
        ControlChar(c);
      }
    }

    method ClearParameters(q: bool)
      requires Valid()
      modifies this`npar, this`state, this`ques, par
      ensures Valid() && Abs() == old(Abs()).(state := 3, npar := 0, par := seq(NPAR, _ => 0), ques := q)
    {
      var i := 0;
      while i < NPAR
        invariant 0 <= i <= NPAR && Valid()
        invariant forall k | 0 <= k < i :: par[k] == 0
        invariant Abs() == old(Abs()).(par := par[..])
      {
        par[i] := 0;
        i := i + 1;
      }
      assert par[..] == seq(NPAR, _ => 0);
      npar, state, ques := 0, 3, q;
    }

    /** State 4: the sequence is complete. */
    method ControlChar(c: int)
      requires Valid()
      modifies this, video
      ensures strays == old(strays)
      ensures Valid() && Abs() == Control(old(Abs()), c)
    {
      hide Control;
      if c in {'J' as int, 'K' as int, 'L' as int, 'M' as int, 'P' as int, '@' as int} {
        EditChar(c, par[0]);
      } else if c in {'m' as int, 'r' as int, 's' as int, 'u' as int} {
        ModeChar(c, par[0], par[1]);
      } else {
        MoveChar(c, par[0], par[1]);
      }
    }

    method ModeChar(c: int, p: nat, q: nat)
      requires Valid() && p == par[0] && q == par[1] && c in {'m' as int, 'r' as int, 's' as int, 'u' as int}
      modifies this`attr, this`top, this`bottom, this`x, this`y, this`pos, this`savedX, this`savedY
      ensures Valid() && Abs() == Control(old(Abs()), c)
    {
      hide Control, Colour, SaveCursor, RestoreCursor, SetRegion;
      ControlMode(Abs(), c);
      if c == 'm' as int { CsiColour(); }
      else if c == 'r' as int { SetLines(if p > 0 then p - 1 else 0, if q == 0 then LINES else q); }
      else if c == 's' as int { SaveCur(); }
      else { RestoreCur(); }
    }

    method SetLines(first: nat, last: nat)
      requires Valid()
      modifies this`top, this`bottom
      ensures Valid() && Abs() == SetRegion(old(Abs()), first, last)
    {
      if first < last <= LINES {
        top, bottom := first, last;
      }
    }

    method EditChar(c: int, p: nat)
      requires Valid() && p == par[0] && c in {'J' as int, 'K' as int, 'L' as int, 'M' as int, 'P' as int, '@' as int}
      modifies this`top, this`bottom, this`origin, this`pos, this`scrEnd, video, this`strays
      ensures strays == old(strays)
      ensures Valid() && Abs() == Control(old(Abs()), c)
    {
      hide RollUp, RollDown, Open, Close, Erase, EraseDisplay, EraseLine, Count;
      if c == 'J' as int { CsiJ(p); }
      else if c == 'K' as int { CsiK(p); }
      else if c == 'L' as int { CsiL(p); }
      else if c == 'M' as int { CsiM(p); }
      else if c == 'P' as int { CsiP(p); }
      else { CsiAt(p); }
    }

    method MoveChar(c: int, p: nat, q: nat)
      requires Valid() && p == par[0] && q == par[1]
      requires c !in {'J' as int, 'K' as int, 'L' as int, 'M' as int, 'P' as int, '@' as int,
                      'm' as int, 'r' as int, 's' as int, 'u' as int}
      modifies this`x, this`y, this`pos
      ensures Valid() && Abs() == Control(old(Abs()), c)
    {
      var n := if p == 0 then 1 else p;
      var m := if p == 0 then 0 else p - 1;
      hide Goto;
      if c == 'G' as int || c == '`' as int { GotoXY(m, y); }
      else if c == 'A' as int { GotoXY(x, Sub32(y, n)); }
      else if c == 'B' as int || c == 'e' as int { GotoXY(x, Add32(y, n)); }
      else if c == 'C' as int || c == 'a' as int { GotoXY(Add32(x, n), y); }
      else if c == 'D' as int { GotoXY(Sub32(x, n), y); }
      else if c == 'E' as int { GotoXY(0, Add32(y, n)); }
      else if c == 'F' as int { GotoXY(0, Sub32(y, n)); }
      else if c == 'd' as int { GotoXY(x, m); }
      else if c == 'H' as int || c == 'f' as int { GotoXY(if q == 0 then 0 else q - 1, m); }
    }

    /** `con_write`: whatever is written, the screen shows what a software-scrolled terminal would show. */
    method ConWrite(bytes: seq<Byte>, erase: Byte)
      requires Valid()
      modifies this, video, par
      ensures strays == old(strays)
      ensures Valid() && Abs() == Feed(old(Abs()), bytes, erase)
    {
      var i := 0;
      ghost var t := Abs();
      hide Step;
      while i < |bytes|
        invariant 0 <= i <= |bytes| && Valid() && strays == old(strays)
        invariant Feed(Abs(), bytes[i..], erase) == Feed(t, bytes, erase)
      {
        assert bytes[i..][1..] == bytes[i + 1..];
        OneByte(bytes[i], erase);
        i := i + 1;
      }
      assert bytes[i..] == [];
    }

    method OneByte(b: Byte, erase: Byte)
      requires Valid()
      modifies this, video, par
      ensures strays == old(strays)
      ensures Valid() && Abs() == Step(old(Abs()), b, erase)
    {
      var c := if b < 128 then b else b - 256;
      hide Plain, Escape, Start, Parameter;
      if state == 0 { PlainChar(c, erase); }
      else if state == 1 { EscapeChar(c); }
      else { ParameterChar(c, state == 2); }
    }
  }

  /** `count` cells were copied from `src` to `dst`. */
  ghost predicate CellsMoved(v: seq<nat>, w: seq<nat>, dst: nat, src: nat, count: nat) {
    && |w| == |v| && dst + count <= |v| && src + count <= |v|
    && forall c {:trigger w[c]} | 0 <= c < |w| :: w[c] == if dst <= c < dst + count then v[c - dst + src] else v[c]
  }

  ghost predicate CellsBlanked(v: seq<nat>, w: seq<nat>, dst: nat, count: nat) {
    && |w| == |v| && dst + count <= |v|
    && forall c {:trigger w[c]} | 0 <= c < |w| :: w[c] == if dst <= c < dst + count then BLANK else v[c]
  }

  /** Only the window at `base` may have changed. */
  ghost predicate SameOutside(v: seq<nat>, w: seq<nat>, base: nat) {
    && |w| == |v|
    && forall c {:trigger w[c]} | 0 <= c < |w| && !(base <= c < base + CELLS) :: w[c] == v[c]
  }

  lemma CellStored(v: seq<nat>, v': seq<nat>, base: nat, k: nat, cell: nat)
    requires base + CELLS <= |v| && k < CELLS && v' == v[base + k := cell]
    ensures v'[base..base + CELLS] == v[base..base + CELLS][k := cell]
  {
  }

  lemma LinesRolledDown(v: seq<nat>, w: seq<nat>, v': seq<nat>, base: nat, first: nat, last: nat, from: nat, to: nat)
    requires base + CELLS <= |v| && first < last <= LINES
    requires from == base + COLUMNS * first && to == base + COLUMNS * last
    requires CellsMoved(v, w, from + COLUMNS, from, to - COLUMNS - from) && CellsBlanked(w, v', from, COLUMNS)
    ensures v'[base..base + CELLS] == RollDown(v[base..base + CELLS], first, last, 1) && SameOutside(v, v', base)
  {
    var g, g' := v[base..base + CELLS], v'[base..base + CELLS];
    forall i | 0 <= i < CELLS ensures g'[i] == RollDown(g, first, last, 1)[i] {
      assert g'[i] == v'[base + i];
    }
  }

  lemma LinesRolledUp(v: seq<nat>, w: seq<nat>, v': seq<nat>, base: nat, first: nat, last: nat, from: nat, to: nat)
    requires base + CELLS <= |v| && first < last <= LINES
    requires from == base + COLUMNS * first && to == base + COLUMNS * last
    requires CellsMoved(v, w, from, from + COLUMNS, to - COLUMNS - from) && CellsBlanked(w, v', to - COLUMNS, COLUMNS)
    ensures v'[base..base + CELLS] == RollUp(v[base..base + CELLS], first, last, 1) && SameOutside(v, v', base)
  {
    var g, g' := v[base..base + CELLS], v'[base..base + CELLS];
    forall i | 0 <= i < CELLS ensures g'[i] == RollUp(g, first, last, 1)[i] {
      assert g'[i] == v'[base + i];
    }
  }

  lemma LineOpened(v: seq<nat>, v': seq<nat>, base: nat, x: nat, y: nat)
    requires base + CELLS <= |v| == |v'| && x <= COLUMNS && y < LINES
    requires forall c {:trigger v'[c]} | base <= c < base + CELLS ::
               v'[c] == if base + COLUMNS * y + x <= c < base + COLUMNS * y + COLUMNS
                        then (if c == base + COLUMNS * y + x then BLANK else v[c - 1]) else v[c]
    ensures v'[base..base + CELLS] == Open(v[base..base + CELLS], x, y, 1)
  {
    var g, g' := v[base..base + CELLS], v'[base..base + CELLS];
    forall i | 0 <= i < CELLS ensures g'[i] == Open(g, x, y, 1)[i] {
      assert g'[i] == v'[base + i];
    }
  }

  lemma LineClosed(v: seq<nat>, v': seq<nat>, base: nat, x: nat, y: nat)
    requires base + CELLS <= |v| == |v'| && x <= COLUMNS && y < LINES
    requires forall c {:trigger v'[c]} | base <= c < base + CELLS ::
               v'[c] == if base + COLUMNS * y + x <= c < base + COLUMNS * y + COLUMNS
                        then (if c + 1 == base + COLUMNS * y + COLUMNS then BLANK else v[c + 1]) else v[c]
    ensures v'[base..base + CELLS] == Close(v[base..base + CELLS], x, y, 1)
  {
    var g, g' := v[base..base + CELLS], v'[base..base + CELLS];
    forall i | 0 <= i < CELLS ensures g'[i] == Close(g, x, y, 1)[i] {
      assert g'[i] == v'[base + i];
    }
  }

  /** The lines after the first one of the window were copied to the start of video memory. */
  lemma CopiedBack(v: seq<nat>, w: seq<nat>, v': seq<nat>, base: nat)
    requires base + CELLS <= |v|
    requires CellsMoved(v, w, 0, base + COLUMNS, CELLS - COLUMNS) && CellsBlanked(w, v', CELLS - COLUMNS, COLUMNS)
    ensures v'[0..CELLS] == RollUp(v[base..base + CELLS], 0, LINES, 1) && SameOutside(v, v', 0)
  {
    hide RollUp;
    WindowMoved(v, v', base, 0);
  }

  /** The window moved on by a line, and the line that came into view was blanked. */
  lemma LineShown(v: seq<nat>, v': seq<nat>, base: nat)
    requires CellsBlanked(v, v', base + CELLS, COLUMNS)
    ensures base + COLUMNS + CELLS <= |v| == |v'| && SameOutside(v, v', base + COLUMNS)
    ensures v'[base + COLUMNS..base + COLUMNS + CELLS] == RollUp(v[base..base + CELLS], 0, LINES, 1)
  {
    hide RollUp;
    WindowMoved(v, v', base, base + COLUMNS);
  }

  /** If the window now at `base'` shows the lines after the first one of the old window, and a blank one, the
      screen has rolled up by a line. */
  lemma WindowMoved(v: seq<nat>, v': seq<nat>, base: nat, base': nat)
    requires base + CELLS <= |v| == |v'| && base' + CELLS <= |v|
    requires forall c {:trigger v'[c]} | base' <= c < base' + CELLS ::
               v'[c] == if c < base' + CELLS - COLUMNS then v[c - base' + base + COLUMNS] else BLANK
    ensures v'[base'..base' + CELLS] == RollUp(v[base..base + CELLS], 0, LINES, 1)
  {
  }
}
