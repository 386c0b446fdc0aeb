/** A terminal as its user sees it: a grid of 25 lines of 80 cells, scrolled in software, and an escape-sequence
    parser. This is the specification of con_write. */
module Terminal {
  const LINES := 25
  const COLUMNS := 80
  const CELLS := 2000
  const NPAR := 16
  const BLANK := 0x0720
  const UINT := 0x1_0000_0000

  type Byte = b: int | 0 <= b < 256
  type Cell = nat

  datatype Term = Term(
    grid: seq<Cell>, x: nat, y: nat, top: nat, bottom: nat, attr: nat,
    state: nat, npar: nat, par: seq<nat>, ques: bool, savedX: nat, savedY: nat, replies: nat)

  predicate TermOk(t: Term) {
    && |t.grid| == CELLS && t.x <= COLUMNS && t.y < LINES && t.top < t.bottom <= LINES
    && t.state <= 3 && t.npar < NPAR && |t.par| == NPAR && (forall i | 0 <= i < NPAR :: t.par[i] < UINT)
    && t.savedX <= COLUMNS && t.savedY < LINES
  }

  // ---------- Whole lines ----------

  /** Lines `top`..`bottom` move up by `n`, blank lines come in at the bottom. */
  function RollUp(g: seq<Cell>, top: nat, bottom: nat, n: nat): (r: seq<Cell>)
    requires |g| == CELLS && top <= bottom <= LINES
    ensures |r| == CELLS
  {
    seq(CELLS, i requires 0 <= i < CELLS =>
      if COLUMNS * top <= i < COLUMNS * bottom then
        if i + COLUMNS * n < COLUMNS * bottom then g[i + COLUMNS * n] else BLANK
      else g[i])
  }

  /** Lines `top`..`bottom` move down by `n`, blank lines come in at the top. */
  function RollDown(g: seq<Cell>, top: nat, bottom: nat, n: nat): (r: seq<Cell>)
    requires |g| == CELLS && top <= bottom <= LINES
    ensures |r| == CELLS
  {
    seq(CELLS, i requires 0 <= i < CELLS =>
      if COLUMNS * top <= i < COLUMNS * bottom then
        if i - COLUMNS * n >= COLUMNS * top then g[i - COLUMNS * n] else BLANK
      else g[i])
  }

  // ---------- Within a line ----------

  /** The cells `from`..`to` become blank. */
  function Erase(g: seq<Cell>, from: nat, to: nat): (r: seq<Cell>)
    requires |g| == CELLS
    ensures |r| == CELLS
  {
    seq(CELLS, i requires 0 <= i < CELLS => if from <= i < to then BLANK else g[i])
  }

  /** From column `x` of line `y` on, cells move right by `n`; those pushed past the edge are lost. */
  function Open(g: seq<Cell>, x: nat, y: nat, n: nat): (r: seq<Cell>)
    requires |g| == CELLS
    ensures |r| == CELLS
  {
    var from, to := COLUMNS * y + x, COLUMNS * y + COLUMNS;
    seq(CELLS, i requires 0 <= i < CELLS =>
      if from <= i < to then if i - n >= from then g[i - n] else BLANK else g[i])
  }

  /** From column `x` of line `y` on, cells move left by `n`; blanks come in at the edge. */
  function Close(g: seq<Cell>, x: nat, y: nat, n: nat): (r: seq<Cell>)
    requires |g| == CELLS
    ensures |r| == CELLS
  {
    var from, to := COLUMNS * y + x, COLUMNS * y + COLUMNS;
    seq(CELLS, i requires 0 <= i < CELLS =>
      if from <= i < to then if i + n < to && i + n < CELLS then g[i + n] else BLANK else g[i])
  }

  // ---------- Doing something n times ----------

  lemma RollUpMore(g: seq<Cell>, top: nat, bottom: nat, n: nat)
    requires |g| == CELLS && top <= bottom <= LINES
    ensures RollUp(RollUp(g, top, bottom, n), top, bottom, 1) == RollUp(g, top, bottom, n + 1)
    ensures RollUp(g, top, bottom, 0) == g
  {
  }

  lemma RollDownMore(g: seq<Cell>, top: nat, bottom: nat, n: nat)
    requires |g| == CELLS && top <= bottom <= LINES
    ensures RollDown(RollDown(g, top, bottom, n), top, bottom, 1) == RollDown(g, top, bottom, n + 1)
    ensures RollDown(g, top, bottom, 0) == g
  {
  }

  lemma OpenMore(g: seq<Cell>, x: nat, y: nat, n: nat)
    requires |g| == CELLS
    ensures Open(Open(g, x, y, n), x, y, 1) == Open(g, x, y, n + 1)
    ensures Open(g, x, y, 0) == g
  {
  }

  lemma CloseMore(g: seq<Cell>, x: nat, y: nat, n: nat)
    requires |g| == CELLS && y < LINES
    ensures Close(Close(g, x, y, n), x, y, 1) == Close(g, x, y, n + 1)
    ensures Close(g, x, y, 0) == g
  {
  }

  /** Lines that roll out of one edge and back are replaced by blank ones; everything else returns. */
  lemma RollUpThenDown(g: seq<Cell>, top: nat, bottom: nat, n: nat)
    requires |g| == CELLS && top <= bottom <= LINES
    ensures RollDown(RollUp(g, top, bottom, n), top, bottom, n) ==
              Erase(g, COLUMNS * top, if top + n <= bottom then COLUMNS * (top + n) else COLUMNS * bottom)
  {
  }

  // ---------- Cursor ----------

  /** Moves only if the target is on the screen. */
  function Goto(t: Term, newX: nat, newY: nat): Term {
    if newX >= COLUMNS || newY >= LINES then t else t.(x := newX, y := newY)
  }

  function LineFeed(t: Term): (u: Term)
    requires TermOk(t)
    ensures TermOk(u)
  {
    if t.y + 1 < t.bottom then t.(y := t.y + 1) else t.(grid := RollUp(t.grid, t.top, t.bottom, 1))
  }

  function ReverseFeed(t: Term): (u: Term)
    requires TermOk(t)
    ensures TermOk(u)
  {
    if t.y > t.top then t.(y := t.y - 1) else t.(grid := RollDown(t.grid, t.top, t.bottom, 1))
  }

  /** A cursor just past the edge goes on at the start of the next line. */
  function WrapLine(t: Term): (u: Term)
    requires TermOk(t) && t.x >= COLUMNS
    ensures TermOk(u) && u.x < COLUMNS
  {
    LineFeed(t.(x := t.x - COLUMNS))
  }

  function Print(t: Term, c: Byte): (u: Term)
    requires TermOk(t)
    ensures TermOk(u)
  {
    var u := if t.x >= COLUMNS then WrapLine(t) else t;
    u.(grid := u.grid[COLUMNS * u.y + u.x := 256 * u.attr + c], x := u.x + 1)
  }

  function Rubout(t: Term): (u: Term)
    requires TermOk(t)
    ensures TermOk(u)
  {
    if t.x == 0 then t else t.(x := t.x - 1, grid := t.grid[COLUMNS * t.y + t.x - 1 := BLANK])
  }

  /** To the next multiple of 8; past the edge, on the next line. */
  function Tab(t: Term): (u: Term)
    requires TermOk(t)
    ensures TermOk(u)
  {
    var x := t.x + 8 - t.x % 8;
    if x > COLUMNS then LineFeed(t.(x := x - COLUMNS)) else t.(x := x)
  }

  function SaveCursor(t: Term): Term { t.(savedX := t.x, savedY := t.y) }
  function RestoreCursor(t: Term): Term { t.(x := t.savedX, y := t.savedY) }

  // ---------- Parameters ----------

  /** 32-bit subtraction and addition. */
  function Sub32(a: nat, b: nat): nat { (a - b) % UINT }
  function Add32(a: nat, b: nat): nat { (a + b) % UINT }

  /** A count: at least 1, at most `limit`. */
  function Count(p: nat, limit: nat): nat {
    if p > limit then limit else if p == 0 then 1 else p
  }

  function AtLeast1(p: nat): nat { if p == 0 then 1 else p }
  function Less1(p: nat): nat { if p == 0 then 0 else p - 1 }

  /** The colour set by a list of parameters: the last one that means something. */
  function Colour(attr: nat, par: seq<nat>): nat
    decreases |par|
  {
    if par == [] then attr else
    var p := par[|par| - 1];
    if p == 0 || p == 27 then 0x07
    else if p == 1 || p == 4 then 0x0f
    else if p == 7 then 0x70
    else Colour(attr, par[..|par| - 1])
  }

  // ---------- Escape sequences ----------

  /** A complete control sequence ending in `c`. */
  function Control(t: Term, c: int): (u: Term)
    requires TermOk(t)
    ensures TermOk(u)
  {
    var p, q := t.par[0], t.par[1];
    if c == 'G' as int || c == '`' as int then Goto(t, Less1(p), t.y)
    else if c == 'A' as int then Goto(t, t.x, Sub32(t.y, AtLeast1(p)))
    else if c == 'B' as int || c == 'e' as int then Goto(t, t.x, Add32(t.y, AtLeast1(p)))
    else if c == 'C' as int || c == 'a' as int then Goto(t, Add32(t.x, AtLeast1(p)), t.y)
    else if c == 'D' as int then Goto(t, Sub32(t.x, AtLeast1(p)), t.y)
    else if c == 'E' as int then Goto(t, 0, Add32(t.y, AtLeast1(p)))
    else if c == 'F' as int then Goto(t, 0, Sub32(t.y, AtLeast1(p)))
    else if c == 'd' as int then Goto(t, t.x, Less1(p))
    else if c == 'H' as int || c == 'f' as int then Goto(t, Less1(q), Less1(p))
    else if c == 'J' as int then EraseDisplay(t, p)
    else if c == 'K' as int then EraseLine(t, p)
    else if c == 'L' as int then t.(grid := RollDown(t.grid, t.y, LINES, Count(p, LINES)))
    else if c == 'M' as int then t.(grid := RollUp(t.grid, t.y, LINES, Count(p, LINES)))
    else if c == 'P' as int then t.(grid := Close(t.grid, t.x, t.y, Count(p, COLUMNS)))
    else if c == '@' as int then t.(grid := Open(t.grid, t.x, t.y, Count(p, COLUMNS)))
    else if c == 'm' as int then t.(attr := Colour(t.attr, t.par[..t.npar + 1]))
    else if c == 'r' as int then SetRegion(t, Less1(p), if q == 0 then LINES else q)
    else if c == 's' as int then SaveCursor(t)
    else if c == 'u' as int then RestoreCursor(t)
    else t
  }

  lemma ControlMode(t: Term, c: int)
    requires TermOk(t) && c in {'m' as int, 'r' as int, 's' as int, 'u' as int}
    ensures var p, q := t.par[0], t.par[1];
            Control(t, c) == if c == 'm' as int then t.(attr := Colour(t.attr, t.par[..t.npar + 1]))
                             else if c == 'r' as int then SetRegion(t, Less1(p), if q == 0 then LINES else q)
                             else if c == 's' as int then SaveCursor(t) else RestoreCursor(t)
  {
  }

  function EraseDisplay(t: Term, p: nat): (u: Term)
    requires TermOk(t)
    ensures TermOk(u)
  {
    var here := COLUMNS * t.y + t.x;
    if p == 0 then t.(grid := Erase(t.grid, here, CELLS))
    else if p == 1 then t.(grid := Erase(t.grid, 0, here))
    else if p == 2 then t.(grid := Erase(t.grid, 0, CELLS))
    else t
  }

  function EraseLine(t: Term, p: nat): (u: Term)
    requires TermOk(t)
    ensures TermOk(u)
  {
    var line := COLUMNS * t.y;
    if p == 0 then t.(grid := Erase(t.grid, line + t.x, line + COLUMNS))
    else if p == 1 then t.(grid := Erase(t.grid, line, line + t.x))
    else if p == 2 then t.(grid := Erase(t.grid, line, line + COLUMNS))
    else t
  }

  function SetRegion(t: Term, top: nat, bottom: nat): Term {
    if top < bottom <= LINES then t.(top := top, bottom := bottom) else t
  }

  function Plain(t: Term, c: int, erase: Byte): (u: Term)
    requires TermOk(t) && c < 256
    ensures TermOk(u)
  {
    if 31 < c < 127 then Print(t, c)
    else if c == 27 then t.(state := 1)
    else if c == 10 || c == 11 || c == 12 then LineFeed(t)
    else if c == 13 then t.(x := 0)
    else if c == erase then Rubout(t)
    else if c == 8 then (if t.x > 0 then t.(x := t.x - 1) else t)
    else if c == 9 then Tab(t)
    else t
  }

  /** After ESC. The last two cases look at the column where the character was surely meant. */
  function Escape(t: Term, c: int): (u: Term)
    requires TermOk(t)
    ensures TermOk(u)
  {
    var u := t.(state := 0);
    if c == '[' as int then t.(state := 2)
    else if c == 'E' as int then Goto(u, 0, t.y + 1)
    else if c == 'M' as int then ReverseFeed(u)
    else if c == 'D' as int then LineFeed(u)
    else EscapeRest(u, c)
  }

  function EscapeRest(t: Term, c: int): (u: Term)
    requires TermOk(t)
    ensures TermOk(u)
  {
    if c == 'Z' as int then t.(replies := t.replies + 1)
    else if t.x == '7' as int then SaveCursor(t)
    else if t.x == '8' as int then RestoreCursor(t)
    else t
  }

  lemma AfterEscape(t: Term, c: int)
    requires TermOk(t)
    ensures TermOk(t.(state := 0))
    ensures Escape(t, c) == var u := t.(state := 0);
              if c == '[' as int then t.(state := 2)
              else if c == 'E' as int then Goto(u, 0, u.y + 1) else if c == 'M' as int then ReverseFeed(u)
              else if c == 'D' as int then LineFeed(u) else EscapeRest(u, c)
  {
  }

  /** Inside a control sequence: collect a parameter, or carry the sequence out. */
  function Parameter(t: Term, c: int): (u: Term)
    requires TermOk(t)
    ensures TermOk(u)
  {
    if c == ';' as int && t.npar < NPAR - 1 then t.(state := 3, npar := t.npar + 1)
    else if '0' as int <= c <= '9' as int then
      t.(state := 3, par := t.par[t.npar := (10 * t.par[t.npar] + (c - '0' as int)) % UINT])
    else Control(t.(state := 0), c)
  }

  function Start(t: Term, c: int): (u: Term)
    requires TermOk(t)
    ensures TermOk(u)
  {
    var u := t.(state := 3, npar := 0, par := seq(NPAR, _ => 0), ques := c == '?' as int);
    if c == '?' as int then u else Parameter(u, c)
  }

  /** `char` is signed. */
  function Signed(b: Byte): int { if b < 128 then b else b - 256 }

  /** One byte of output. */
  function Step(t: Term, b: Byte, erase: Byte): (u: Term)
    requires TermOk(t)
    ensures TermOk(u)
  {
    var c := Signed(b);
    if t.state == 0 then Plain(t, c, erase)
    else if t.state == 1 then Escape(t, c)
    else if t.state == 2 then Start(t, c)
    else Parameter(t, c)
  }

  /** A stream of output. */
  function Feed(t: Term, bytes: seq<Byte>, erase: Byte): (u: Term)
    requires TermOk(t)
    ensures TermOk(u)
    decreases |bytes|
  {
    if bytes == [] then t else
    Feed(Step(t, bytes[0], erase), bytes[1..], erase)
  }

  // ---------- What the parser makes of whole sequences ----------

  lemma {:induction false} FeedAppend(t: Term, a: seq<Byte>, b: seq<Byte>, erase: Byte)
    requires TermOk(t)
    ensures Feed(t, a + b, erase) == Feed(Feed(t, a, erase), b, erase)
    decreases |a|
  {
    if a == [] {
      assert a + b == b;
    } else {
      assert (a + b)[1..] == a[1..] + b;
      FeedAppend(Step(t, a[0], erase), a[1..], b, erase);
    }
  }

  /** Full-screen line feeds on the last line roll the screen up, however many there are. */
  lemma {:induction false} LineFeeds(t: Term, n: nat, erase: Byte)
    requires TermOk(t) && t.state == 0 && t.top == 0 && t.bottom == LINES && t.y == LINES - 1
    ensures Feed(t, seq(n, _ => 10), erase) == t.(grid := RollUp(t.grid, 0, LINES, n))
  {
    RollUpMore(t.grid, 0, LINES, 0);
    if n > 0 {
      var feeds: seq<Byte> := seq(n - 1, _ => 10);
      assert seq(n, _ => 10 as Byte) == feeds + [10];
      FeedAppend(t, feeds, [10], erase);
      LineFeeds(t, n - 1, erase);
      RollUpMore(t.grid, 0, LINES, n - 1);
      FeedOne(Feed(t, feeds, erase), 10, erase);
    }
  }

  lemma FeedOne(t: Term, b: Byte, erase: Byte)
    requires TermOk(t)
    ensures Feed(t, [b], erase) == Step(t, b, erase)
  {
    assert [b][1..] == [];
  }

  /** ESC 7 is meant to save the cursor. It does if and only if the cursor is in column 55, the code of `7`. */
  lemma SaveIff(t: Term, erase: Byte)
    requires TermOk(t) && t.state == 0
    ensures var u := Feed(t, [27, '7' as int], erase);
            u.savedX == t.x && u.savedY == t.y <==> t.x == 55 || (t.savedX == t.x && t.savedY == t.y)
  {
    EscapeTwo(t, '7' as int, erase);
  }

  /** ESC 8 is meant to go back there. It does if and only if the cursor is in column 56. */
  lemma RestoreIff(t: Term, erase: Byte)
    requires TermOk(t) && t.state == 0
    ensures var u := Feed(t, [27, '8' as int], erase);
            u.x == t.savedX && u.y == t.savedY <==> t.x == 56 || (t.savedX == t.x && t.savedY == t.y)
  {
    EscapeTwo(t, '8' as int, erase);
  }

  lemma EscapeTwo(t: Term, c: Byte, erase: Byte)
    requires TermOk(t) && t.state == 0 && c < 128
    ensures Feed(t, [27, c], erase) == Escape(t.(state := 1), c)
  {
    assert [27, c][1..] == [c];
    FeedOne(t.(state := 1), c, erase);
  }

  /** A number in decimal digits. */
  function Decimal(n: nat): (d: seq<Byte>)
    ensures |d| > 0 && '0' as int <= d[0] <= '9' as int
  {
    if n < 10 then ['0' as int + n] else Decimal(n / 10) + ['0' as int + n % 10]
  }

  lemma FeedDigit(t: Term, n: nat, erase: Byte)
    requires TermOk(t) && t.state == 3 && n < 10
    ensures Feed(t, ['0' as int + n], erase) == t.(par := t.par[t.npar := (10 * t.par[t.npar] + n) % UINT])
  {
    FeedOne(t, '0' as int + n, erase);
  }

  /** The digits of a number, fed as a fresh parameter, set the parameter to that number. */
  lemma {:induction false} FeedDecimal(t: Term, n: nat, erase: Byte)
    requires TermOk(t) && t.state == 3 && t.par[t.npar] == 0 && n < UINT
    ensures Feed(t, Decimal(n), erase) == t.(par := t.par[t.npar := n])
  {
    hide Step, Feed;
    if n < 10 {
      FeedDigit(t, n, erase);
    } else {
      FeedAppend(t, Decimal(n / 10), ['0' as int + n % 10], erase);
      FeedDecimal(t, n / 10, erase);
      FeedDigit(t.(par := t.par[t.npar := n / 10]), n % 10, erase);
    }
  }

  /** ESC [ row ; column H */
  function CursorTo(row: nat, column: nat): seq<Byte> {
    [27, '[' as int] + (Decimal(row) + ([';' as int] + (Decimal(column) + ['H' as int])))
  }

  /** From any state between sequences, the cursor goes to the named position and nothing on the screen changes. */
  lemma CursorAddressing(t: Term, row: nat, column: nat, erase: Byte)
    requires TermOk(t) && t.state == 0 && 1 <= row <= LINES && 1 <= column <= COLUMNS
    ensures var u := Feed(t, CursorTo(row, column), erase);
            && u.x == column - 1 && u.y == row - 1 && u.state == 0
            && u == t.(x := u.x, y := u.y, npar := u.npar, par := u.par, ques := u.ques)
  {
    var last: seq<Byte> := Decimal(column) + ['H' as int];
    OpenSequence(t, Decimal(row) + ([';' as int] + last), erase);
    var t1 := Opened(t);
    FeedAppend(t1, Decimal(row), [';' as int] + last, erase);
    FeedDecimal(t1, row, erase);
    var t2 := t1.(par := t1.par[0 := row]);
    FeedAppend(t2, [';' as int], last, erase);
    FeedOne(t2, ';' as int, erase);
    SecondParameter(t2, column, erase);
  }

  /** ; column H */
  lemma SecondParameter(t: Term, column: nat, erase: Byte)
    requires TermOk(t) && t.state == 3 && t.npar == 0 && 1 <= t.par[0] <= LINES && 1 <= column <= COLUMNS
    requires forall i | 1 <= i < NPAR :: t.par[i] == 0
    ensures Step(t, ';' as int, erase) == t.(npar := 1)
    ensures Feed(t.(npar := 1), Decimal(column) + ['H' as int], erase) ==
              t.(npar := 1, par := t.par[1 := column], state := 0, x := column - 1, y := t.par[0] - 1)
  {
    var t1 := t.(npar := 1);
    FeedAppend(t1, Decimal(column), ['H' as int], erase);
    FeedDecimal(t1, column, erase);
    FeedOne(t1.(par := t1.par[1 := column]), 'H' as int, erase);
  }

  /** The state in which the first parameter is collected. */
  function Opened(t: Term): Term {
    t.(state := 3, npar := 0, par := seq(NPAR, _ => 0), ques := false)
  }

  /** ESC [ followed by a digit starts collecting parameters with that digit. */
  lemma OpenSequence(t: Term, rest: seq<Byte>, erase: Byte)
    requires TermOk(t) && t.state == 0 && rest != [] && '0' as int <= rest[0] <= '9' as int
    ensures Feed(t, [27, '[' as int] + rest, erase) ==
              Feed(Opened(t), rest, erase)
  {
    var bytes := [27, '[' as int] + rest;
    var t1, t2 := t.(state := 1), t.(state := 2);
    assert bytes[1..] == ['[' as int] + rest && bytes[1..][1..] == rest;
    assert Step(t, 27, erase) == t1 && Step(t1, '[' as int, erase) == t2;
    assert Feed(t, bytes, erase) == Feed(t1, bytes[1..], erase) == Feed(t2, rest, erase);
    assert Step(t2, rest[0], erase) == Step(Opened(t), rest[0], erase);
  }
}
