/** What streams of bytes do to the terminal, cell by cell and for the cursor, in the words of the VT100. */
module TerminalBytes {
  import opened Terminal

  /** The cell in line `r` and column `c`. */
  function At(t: Term, r: nat, c: nat): Cell
    requires |t.grid| == CELLS && r < LINES && c < COLUMNS
  {
    t.grid[80 * r + c]
  }

  /** The parser is between sequences, and neither saved cursor nor answers have changed. */
  predicate Settled(t: Term, u: Term) {
    u.state == 0 && u.savedX == t.savedX && u.savedY == t.savedY && u.replies == t.replies
  }

  /** Nothing but the cursor, and the parser's parameters, may have changed. */
  predicate Moved(t: Term, u: Term) {
    Settled(t, u) && u.grid == t.grid && u.attr == t.attr && u.top == t.top && u.bottom == t.bottom
  }

  /** Nothing but cells, and the parser's parameters, may have changed. */
  predicate Drawn(t: Term, u: Term) {
    Settled(t, u) && u.x == t.x && u.y == t.y && u.attr == t.attr && u.top == t.top && u.bottom == t.bottom
    && |u.grid| == |t.grid| == CELLS
  }

  // ---------- Characters ----------

  /** A printable byte is shown at the cursor, in the low half of the cell, with the attribute in the high half. */
  lemma Printed(t: Term, b: Byte, erase: Byte)
    requires TermOk(t) && t.state == 0 && 32 <= b <= 126 && t.x < 80
    ensures var u := Feed(t, [b], erase);
            && u == t.(grid := u.grid, x := t.x + 1)
            && At(u, t.y, t.x) % 256 == b && At(u, t.y, t.x) / 256 == t.attr
            && forall r: nat, c: nat | r < 25 && c < 80 && (r != t.y || c != t.x) :: At(u, r, c) == At(t, r, c)
  {
    FeedOne(t, b, erase);
    var u := Feed(t, [b], erase);
    assert u.grid == t.grid[80 * t.y + t.x := 256 * t.attr + b];
  }

  /** Past the right edge it is shown at the start of the next line. */
  lemma PrintedNext(t: Term, b: Byte, erase: Byte)
    requires TermOk(t) && t.state == 0 && 32 <= b <= 126 && t.x == 80 && t.y + 1 < t.bottom
    ensures var u := Feed(t, [b], erase);
            && u == t.(grid := u.grid, x := 1, y := t.y + 1)
            && At(u, t.y + 1, 0) % 256 == b && At(u, t.y + 1, 0) / 256 == t.attr
            && forall r: nat, c: nat | r < 25 && c < 80 && (r != t.y + 1 || c != 0) :: At(u, r, c) == At(t, r, c)
  {
    FeedOne(t, b, erase);
    var u := Feed(t, [b], erase);
    assert u.grid == t.grid[80 * (t.y + 1) := 256 * t.attr + b];
  }

  /** The lines of the region of `t` are one further up in `u`, and the last of them is blank. */
  predicate RolledUp(t: Term, u: Term) {
    && |t.grid| == |u.grid| == CELLS && t.top < t.bottom <= 25
    && forall r: nat, c: nat | r < 25 && c < 80 ::
         At(u, r, c) == if !(t.top <= r < t.bottom) then At(t, r, c) else if r + 1 < t.bottom then At(t, r + 1, c) else 0x0720
  }

  predicate RolledDown(t: Term, u: Term) {
    && |t.grid| == |u.grid| == CELLS && t.top < t.bottom <= 25
    && forall r: nat, c: nat | r < 25 && c < 80 ::
         At(u, r, c) == if !(t.top <= r < t.bottom) then At(t, r, c) else if r > t.top then At(t, r - 1, c) else 0x0720
  }

  lemma RollUpCells(t: Term)
    requires TermOk(t)
    ensures RolledUp(t, t.(grid := RollUp(t.grid, t.top, t.bottom, 1)))
  {
  }

  lemma RollDownCells(t: Term)
    requires TermOk(t)
    ensures RolledDown(t, t.(grid := RollDown(t.grid, t.top, t.bottom, 1)))
  {
  }

  /** ... and below the region, or on its last line, the region is rolled up first. */
  lemma PrintedRolled(t: Term, b: Byte, erase: Byte)
    requires TermOk(t) && t.state == 0 && 32 <= b <= 126 && t.x == 80 && t.y + 1 >= t.bottom
    ensures var u := Feed(t, [b], erase);
            && u == t.(grid := u.grid, x := 1) && |u.grid| == CELLS
            && At(u, t.y, 0) % 256 == b && At(u, t.y, 0) / 256 == t.attr
            && RolledUp(t, u.(grid := u.grid[80 * t.y := if t.y + 1 == t.bottom then 0x0720 else t.grid[80 * t.y]]))
  {
    FeedOne(t, b, erase);
    RollUpCells(t);
    var u, v := Feed(t, [b], erase), RollUp(t.grid, t.top, t.bottom, 1);
    assert u.grid == v[80 * t.y := 256 * t.attr + b];
    assert u.grid[80 * t.y := v[80 * t.y]] == v;
  }

  lemma Backspace(t: Term, erase: Byte)
    requires TermOk(t) && t.state == 0 && erase != 8
    ensures Feed(t, [8], erase) == t.(x := if t.x == 0 then 0 else t.x - 1)
  {
    FeedOne(t, 8, erase);
  }

  /** A tab goes to the next column that is a multiple of 8; just past the edge, to column 8 of the next line. */
  lemma Tabbed(t: Term, erase: Byte)
    requires TermOk(t) && t.state == 0 && erase != 9
    ensures var u := Feed(t, [9], erase);
            if t.x < 80 then u == t.(x := u.x) && u.x % 8 == 0 && t.x < u.x <= t.x + 8
            else if t.y + 1 < t.bottom then u == t.(x := 8, y := t.y + 1)
            else u == t.(x := 8, grid := u.grid) && RolledUp(t, u)
  {
    FeedOne(t, 9, erase);
    RollUpCells(t);
  }

  lemma CarriageReturn(t: Term, erase: Byte)
    requires TermOk(t) && t.state == 0
    ensures Feed(t, [13], erase) == t.(x := 0)
  {
    FeedOne(t, 13, erase);
  }

  lemma LineFed(t: Term, b: Byte, erase: Byte)
    requires TermOk(t) && t.state == 0 && b in {10, 11, 12}
    ensures var u := Feed(t, [b], erase);
            if t.y + 1 < t.bottom then u == t.(y := t.y + 1) else u == t.(grid := u.grid) && RolledUp(t, u)
  {
    FeedOne(t, b, erase);
    RollUpCells(t);
  }

  /** The erase character blanks the cell before the cursor. */
  lemma RubbedOut(t: Term, erase: Byte)
    requires TermOk(t) && t.state == 0 && (erase < 32 || erase == 127) && erase !in {10, 11, 12, 13, 27}
    ensures var u := Feed(t, [erase], erase);
            if t.x == 0 then u == t
            else u == t.(x := t.x - 1, grid := u.grid) && |u.grid| == CELLS && At(u, t.y, t.x - 1) == 0x0720
                 && forall r: nat, c: nat | r < 25 && c < 80 && (r != t.y || c != t.x - 1) :: At(u, r, c) == At(t, r, c)
  {
    FeedOne(t, erase, erase);
  }

  /** All other bytes do nothing; bytes from 128 on are negative characters. */
  lemma Ignored(t: Term, b: Byte, erase: Byte)
    requires TermOk(t) && t.state == 0
    requires b >= 128 || (b !in {8, 9, 10, 11, 12, 13, 27, erase} && (b < 32 || b == 127))
    ensures Feed(t, [b], erase) == t
  {
    FeedOne(t, b, erase);
  }

  /** ESC D, ESC M and ESC E. */
  lemma EscapeMoves(t: Term, erase: Byte)
    requires TermOk(t) && t.state == 0
    ensures var u := Feed(t, [27, 'D' as int], erase);
            if t.y + 1 < t.bottom then u == t.(y := t.y + 1) else u == t.(grid := u.grid) && RolledUp(t, u)
    ensures var u := Feed(t, [27, 'M' as int], erase);
            if t.y > t.top then u == t.(y := t.y - 1) else u == t.(grid := u.grid) && RolledDown(t, u)
    ensures Feed(t, [27, 'E' as int], erase) == if t.y + 1 < 25 then t.(x := 0, y := t.y + 1) else t
    ensures Feed(t, [27, 'Z' as int], erase) == t.(replies := t.replies + 1)
  {
    RollUpCells(t);
    RollDownCells(t);
    hide RollUp, RollDown, RolledUp, RolledDown;
    EscapeTwo(t, 'D' as int, erase);
    EscapeTwo(t, 'M' as int, erase);
    EscapeTwo(t, 'E' as int, erase);
    EscapeTwo(t, 'Z' as int, erase);
  }

  // ---------- Control sequences ----------

  /** ESC [ with no argument, with one, and with two. */
  function Seq0(final: Byte): seq<Byte> { [27, '[' as int, final] }
  function Seq1(p: nat, final: Byte): seq<Byte> { [27, '[' as int] + (Decimal(p) + [final]) }
  function Seq2(p: nat, q: nat, final: Byte): seq<Byte> {
    [27, '[' as int] + (Decimal(p) + ([';' as int] + (Decimal(q) + [final])))
  }

  predicate Final(c: Byte) { 64 <= c < 127 }

  /** What a control sequence starts from: the parameters are set, and 0 where there are none. */
  function With(t: Term, npar: nat, p: nat, q: nat): Term {
    t.(state := 0, npar := npar, par := seq(NPAR, _ => 0)[0 := p][1 := q], ques := false)
  }

  lemma Fed0(t: Term, final: Byte, erase: Byte)
    requires TermOk(t) && t.state == 0 && Final(final)
    ensures TermOk(With(t, 0, 0, 0)) && Feed(t, Seq0(final), erase) == Control(With(t, 0, 0, 0), final)
  {
    var bytes := Seq0(final);
    assert bytes[1..] == ['[' as int, final] && bytes[1..][1..] == [final];
    var t1, t2 := t.(state := 1), t.(state := 2);
    assert Step(t, 27, erase) == t1 && Step(t1, '[' as int, erase) == t2;
    FeedOne(t2, final, erase);
    assert seq(NPAR, _ => 0)[0 := 0][1 := 0] == seq(NPAR, _ => 0);
    hide Control;
  }

  lemma Fed1(t: Term, p: nat, final: Byte, erase: Byte)
    requires TermOk(t) && t.state == 0 && p < UINT && Final(final)
    ensures TermOk(With(t, 0, p, 0)) && Feed(t, Seq1(p, final), erase) == Control(With(t, 0, p, 0), final)
  {
    hide Control;
    var t1 := Opened(t);
    OpenSequence(t, Decimal(p) + [final], erase);
    FeedAppend(t1, Decimal(p), [final], erase);
    FeedDecimal(t1, p, erase);
    FeedOne(t1.(par := t1.par[0 := p]), final, erase);
    assert t1.par[0 := p] == seq(NPAR, _ => 0)[0 := p][1 := 0];
  }

  lemma Fed2(t: Term, p: nat, q: nat, final: Byte, erase: Byte)
    requires TermOk(t) && t.state == 0 && p < UINT && q < UINT && Final(final)
    ensures TermOk(With(t, 1, p, q)) && Feed(t, Seq2(p, q, final), erase) == Control(With(t, 1, p, q), final)
  {
    hide Control;
    var last: seq<Byte> := Decimal(q) + [final];
    var t1 := Opened(t);
    OpenSequence(t, Decimal(p) + ([';' as int] + last), erase);
    FeedAppend(t1, Decimal(p), [';' as int] + last, erase);
    FeedDecimal(t1, p, erase);
    var t2 := t1.(par := t1.par[0 := p]);
    FeedAppend(t2, [';' as int], last, erase);
    FeedOne(t2, ';' as int, erase);
    var t3 := t2.(npar := 1);
    FeedAppend(t3, Decimal(q), [final], erase);
    FeedDecimal(t3, q, erase);
    FeedOne(t3.(par := t3.par[1 := q]), final, erase);
    assert t3.par[1 := q] == seq(NPAR, _ => 0)[0 := p][1 := q];
  }

  /** A control sequence with at most one argument; a missing one is 0. */
  ghost predicate Fed(t: Term, p: nat, final: Byte, erase: Byte, u: Term)
    requires TermOk(t)
  {
    u == Feed(t, Seq1(p, final), erase) || (p == 0 && u == Feed(t, Seq0(final), erase))
  }

  lemma FedIs(t: Term, p: nat, final: Byte, erase: Byte, u: Term)
    requires TermOk(t) && t.state == 0 && p < UINT && Final(final) && Fed(t, p, final, erase, u)
    ensures TermOk(With(t, 0, p, 0)) && u == Control(With(t, 0, p, 0), final)
  {
    hide Control;
    if u == Feed(t, Seq1(p, final), erase) { Fed1(t, p, final, erase); } else { Fed0(t, final, erase); }
  }

  // ---------- Erasing ----------

  /** ESC [ J: 0 erases from the cursor to the end of the screen, 1 from its start to before the cursor, 2 all of it. */
  lemma DisplayErased(t: Term, p: nat, erase: Byte, u: Term)
    requires TermOk(t) && t.state == 0 && p < UINT && Fed(t, p, 'J' as int, erase, u)
    ensures Drawn(t, u)
    ensures forall r: nat, c: nat | r < 25 && c < 80 ::
              var before := r < t.y || (r == t.y && c < t.x);
              At(u, r, c) == if p == 2 || (p == 0 && !before) || (p == 1 && before) then 0x0720 else At(t, r, c)
  {
    FedIs(t, p, 'J' as int, erase, u);
    assert u == EraseDisplay(With(t, 0, p, 0), p);
  }

  /** ESC [ K: the same within the line of the cursor. */
  lemma LineErased(t: Term, p: nat, erase: Byte, u: Term)
    requires TermOk(t) && t.state == 0 && p < UINT && Fed(t, p, 'K' as int, erase, u)
    ensures Drawn(t, u)
    ensures forall r: nat, c: nat | r < 25 && c < 80 ::
              At(u, r, c) == if r == t.y && (p == 2 || (p == 0 && c >= t.x) || (p == 1 && c < t.x)) then 0x0720
                             else At(t, r, c)
  {
    FedIs(t, p, 'K' as int, erase, u);
    assert u == EraseLine(With(t, 0, p, 0), p);
  }

  // ---------- Moving the cursor ----------

  /** A missing or zero distance is 1. */
  function Distance(p: nat): nat { if p == 0 then 1 else p }

  /** Where a move by `n` from `i` ends: it is not made if that is not below `limit`. (A distance near 2^32 wraps round, and
      moves the other way.) */
  function Back(i: nat, n: nat, limit: nat): nat {
    if n <= i then (if i - n < limit then i - n else i)
    else if n < UINT && UINT - n + i < limit then UINT - n + i else i
  }

  function Ahead(i: nat, n: nat, limit: nat): nat {
    if i + n < limit then i + n
    else if i + n >= UINT && i + n - UINT < limit then i + n - UINT else i
  }

  /** ESC [ A moves up, if the cursor is not past the edge. */
  lemma MovedUp(t: Term, p: nat, erase: Byte, u: Term)
    requires TermOk(t) && t.state == 0 && p < UINT && Fed(t, p, 'A' as int, erase, u)
    ensures Moved(t, u) && u.x == t.x && u.y == if t.x < 80 then Back(t.y, Distance(p), 25) else t.y
  {
    FedIs(t, p, 'A' as int, erase, u);
    assert u == Goto(With(t, 0, p, 0), t.x, (t.y - Distance(p)) % UINT);
    hide Fed, Control;
    Minus(t.y, Distance(p));
  }

  lemma MovedDown(t: Term, p: nat, final: Byte, erase: Byte, u: Term)
    requires TermOk(t) && t.state == 0 && p < UINT && final in {'B' as int, 'e' as int} && Fed(t, p, final, erase, u)
    ensures Moved(t, u) && u.x == t.x && u.y == if t.x < 80 then Ahead(t.y, Distance(p), 25) else t.y
  {
    FedIs(t, p, final, erase, u);
    assert u == Goto(With(t, 0, p, 0), t.x, (t.y + Distance(p)) % UINT);
    hide Fed, Control;
    Plus(t.y, Distance(p));
  }

  /** ESC [ C and D move right and left. */
  lemma MovedRight(t: Term, p: nat, final: Byte, erase: Byte, u: Term)
    requires TermOk(t) && t.state == 0 && p < UINT && final in {'C' as int, 'a' as int} && Fed(t, p, final, erase, u)
    ensures Moved(t, u) && u.y == t.y && u.x == Ahead(t.x, Distance(p), 80)
  {
    FedIs(t, p, final, erase, u);
    assert u == Goto(With(t, 0, p, 0), (t.x + Distance(p)) % UINT, t.y);
    hide Fed, Control;
    Plus(t.x, Distance(p));
  }

  lemma MovedLeft(t: Term, p: nat, erase: Byte, u: Term)
    requires TermOk(t) && t.state == 0 && p < UINT && Fed(t, p, 'D' as int, erase, u)
    ensures Moved(t, u) && u.y == t.y && u.x == Back(t.x, Distance(p), 80)
  {
    FedIs(t, p, 'D' as int, erase, u);
    assert u == Goto(With(t, 0, p, 0), (t.x - Distance(p)) % UINT, t.y);
    hide Fed, Control;
    Minus(t.x, Distance(p));
  }

  /** ESC [ E and F move down and up, to the start of the line. */
  lemma MovedLinesDown(t: Term, p: nat, erase: Byte, u: Term)
    requires TermOk(t) && t.state == 0 && p < UINT && Fed(t, p, 'E' as int, erase, u)
    ensures Moved(t, u) && u.y == Ahead(t.y, Distance(p), 25) && u.x == if u.y == t.y then t.x else 0
  {
    FedIs(t, p, 'E' as int, erase, u);
    assert u == Goto(With(t, 0, p, 0), 0, (t.y + Distance(p)) % UINT);
    hide Fed, Control;
    Plus(t.y, Distance(p));
  }

  lemma MovedLinesUp(t: Term, p: nat, erase: Byte, u: Term)
    requires TermOk(t) && t.state == 0 && p < UINT && Fed(t, p, 'F' as int, erase, u)
    ensures Moved(t, u) && u.y == Back(t.y, Distance(p), 25) && u.x == if u.y == t.y then t.x else 0
  {
    FedIs(t, p, 'F' as int, erase, u);
    assert u == Goto(With(t, 0, p, 0), 0, (t.y - Distance(p)) % UINT);
    hide Fed, Control;
    Minus(t.y, Distance(p));
  }

  lemma Minus(i: nat, n: nat)
    requires i <= 80 && 1 <= n < UINT
    ensures (i - n) % UINT == if n <= i then i - n else UINT - n + i
  {
  }

  lemma Plus(i: nat, n: nat)
    requires i <= 80 && 1 <= n < UINT
    ensures (i + n) % UINT == if i + n < UINT then i + n else i + n - UINT
  {
  }

  /** ESC [ G names the column and ESC [ d the line, from 1 on. */
  lemma MovedTo(t: Term, p: nat, final: Byte, erase: Byte, u: Term)
    requires TermOk(t) && t.state == 0 && 1 <= p < UINT && Fed(t, p, final, erase, u)
    ensures final in {'G' as int, '`' as int} ==> Moved(t, u) && u.y == t.y && u.x == if p <= 80 then p - 1 else t.x
    ensures final == 'd' as int ==> Moved(t, u) && u.x == t.x && u.y == if p <= 25 && t.x < 80 then p - 1 else t.y
  {
    if final in {'G' as int, '`' as int, 'd' as int} { FedIs(t, p, final, erase, u); }
    hide Fed;
  }

  /** ESC [ H or f with two arguments names line and column; without any it is the corner. */
  lemma MovedToCell(t: Term, p: nat, q: nat, final: Byte, erase: Byte)
    requires TermOk(t) && t.state == 0 && p < UINT && q < UINT && final in {'H' as int, 'f' as int}
    ensures var u := Feed(t, Seq2(p, q, final), erase);
            var row, column := Distance(p) - 1, Distance(q) - 1;
            Moved(t, u) && if row < 25 && column < 80 then u.y == row && u.x == column else u.y == t.y && u.x == t.x
    ensures var v := Feed(t, Seq0(final), erase); Moved(t, v) && v.x == 0 && v.y == 0
  {
    Fed2(t, p, q, final, erase);
    Fed0(t, final, erase);
    hide Feed;
  }

  // ---------- Inserting and deleting ----------

  /** How many lines or characters: 1 if it is not said, and at most `limit`. */
  function Many(p: nat, limit: nat): nat { if Distance(p) > limit then limit else Distance(p) }

  lemma RollDownAt(g: seq<Cell>, y: nat, n: nat, r: nat, c: nat)
    requires |g| == CELLS && y < 25 && r < 25 && c < 80
    ensures RollDown(g, y, LINES, n)[80 * r + c] == if r < y then g[80 * r + c] else if r < y + n then 0x0720
                                                    else g[80 * (r - n) + c]
  {
    assert if r < y + n then 80 * r + c - 80 * n < 80 * y else 80 * r + c - 80 * n >= 80 * y;
  }

  lemma RollUpAt(g: seq<Cell>, y: nat, n: nat, r: nat, c: nat)
    requires |g| == CELLS && y < 25 && r < 25 && c < 80
    ensures RollUp(g, y, LINES, n)[80 * r + c] == if r < y then g[80 * r + c] else if r + n < 25 then g[80 * (r + n) + c]
                                                  else 0x0720
  {
    assert if r + n < 25 then 80 * r + c + 80 * n < 2000 else 80 * r + c + 80 * n >= 2000;
  }

  lemma OpenAt(g: seq<Cell>, x: nat, y: nat, n: nat, r: nat, c: nat)
    requires |g| == CELLS && y < 25 && x <= 80 && r < 25 && c < 80
    ensures Open(g, x, y, n)[80 * r + c] == if r != y || c < x then g[80 * r + c] else if c < x + n then 0x0720
                                            else g[80 * r + c - n]
  {
    assert 80 * y + x <= 80 * r + c < 80 * y + 80 <==> r == y && c >= x;
  }

  lemma CloseAt(g: seq<Cell>, x: nat, y: nat, n: nat, r: nat, c: nat)
    requires |g| == CELLS && y < 25 && x <= 80 && r < 25 && c < 80
    ensures Close(g, x, y, n)[80 * r + c] == if r != y || c < x then g[80 * r + c] else if c + n < 80 then g[80 * r + c + n]
                                             else 0x0720
  {
    assert 80 * y + x <= 80 * r + c < 80 * y + 80 <==> r == y && c >= x;
  }

  /** ESC [ L opens lines at the cursor, down to the end of the screen. */
  lemma LinesOpened(t: Term, p: nat, erase: Byte, u: Term, r: nat, c: nat)
    requires TermOk(t) && t.state == 0 && p < UINT && Fed(t, p, 'L' as int, erase, u) && r < 25 && c < 80
    ensures Drawn(t, u)
    ensures At(u, r, c) == if r < t.y then At(t, r, c) else if r < t.y + Many(p, 25) then 0x0720
                           else At(t, r - Many(p, 25), c)
  {
    FedIs(t, p, 'L' as int, erase, u);
    assert u == With(t, 0, p, 0).(grid := RollDown(t.grid, t.y, LINES, Many(p, 25)));
    hide Fed, RollDown;
    RollDownAt(t.grid, t.y, Many(p, 25), r, c);
  }

  /** ESC [ M closes lines. */
  lemma LinesClosed(t: Term, p: nat, erase: Byte, u: Term, r: nat, c: nat)
    requires TermOk(t) && t.state == 0 && p < UINT && Fed(t, p, 'M' as int, erase, u) && r < 25 && c < 80
    ensures Drawn(t, u)
    ensures At(u, r, c) == if r < t.y then At(t, r, c) else if r + Many(p, 25) < 25 then At(t, r + Many(p, 25), c)
                             else 0x0720
  {
    FedIs(t, p, 'M' as int, erase, u);
    assert u == With(t, 0, p, 0).(grid := RollUp(t.grid, t.y, LINES, Many(p, 25)));
    hide Fed, RollUp;
    RollUpAt(t.grid, t.y, Many(p, 25), r, c);
  }

  /** ESC [ @ opens cells at the cursor, to the end of the line. */
  lemma CellsOpened(t: Term, p: nat, erase: Byte, u: Term, r: nat, c: nat)
    requires TermOk(t) && t.state == 0 && p < UINT && Fed(t, p, '@' as int, erase, u) && r < 25 && c < 80
    ensures Drawn(t, u)
    ensures At(u, r, c) == if r != t.y || c < t.x then At(t, r, c) else if c < t.x + Many(p, 80) then 0x0720
                           else At(t, r, c - Many(p, 80))
  {
    FedIs(t, p, '@' as int, erase, u);
    assert u == With(t, 0, p, 0).(grid := Open(t.grid, t.x, t.y, Many(p, 80)));
    hide Fed, Open;
    OpenAt(t.grid, t.x, t.y, Many(p, 80), r, c);
  }

  /** ESC [ P closes cells. */
  lemma CellsClosed(t: Term, p: nat, erase: Byte, u: Term, r: nat, c: nat)
    requires TermOk(t) && t.state == 0 && p < UINT && Fed(t, p, 'P' as int, erase, u) && r < 25 && c < 80
    ensures Drawn(t, u)
    ensures At(u, r, c) == if r != t.y || c < t.x then At(t, r, c) else if c + Many(p, 80) < 80 then At(t, r, c + Many(p, 80))
                             else 0x0720
  {
    FedIs(t, p, 'P' as int, erase, u);
    assert u == With(t, 0, p, 0).(grid := Close(t.grid, t.x, t.y, Many(p, 80)));
    hide Fed, Close;
    CloseAt(t.grid, t.x, t.y, Many(p, 80), r, c);
  }

  // ---------- Colour, region, saved cursor ----------

  /** What one argument of ESC [ m makes of the attribute. */
  function Attribute(attr: nat, p: nat): nat {
    match p
    case 0 => 0x07
    case 1 => 0x0f
    case 4 => 0x0f
    case 7 => 0x70
    case 27 => 0x07
    case _ => attr
  }

  predicate Coloured(t: Term, u: Term, attr: nat) {
    Moved(t, u.(attr := t.attr)) && u.x == t.x && u.y == t.y && u.attr == attr
  }

  lemma OneColour(t: Term, p: nat, erase: Byte, u: Term)
    requires TermOk(t) && t.state == 0 && p < UINT && Fed(t, p, 'm' as int, erase, u)
    ensures Coloured(t, u, Attribute(t.attr, p))
  {
    FedIs(t, p, 'm' as int, erase, u);
    var par := With(t, 0, p, 0).par[..1];
    assert par == [p] && par[..0] == [];
    assert Colour(t.attr, par[..0]) == t.attr;
    hide Fed;
  }

  lemma TwoColours(t: Term, p: nat, q: nat, erase: Byte)
    requires TermOk(t) && t.state == 0 && p < UINT && q < UINT
    ensures Coloured(t, Feed(t, Seq2(p, q, 'm' as int), erase), Attribute(Attribute(t.attr, p), q))
  {
    Fed2(t, p, q, 'm' as int, erase);
    var par := With(t, 1, p, q).par[..2];
    assert par == [p, q] && par[..1] == [p] && par[..1][..0] == [];
    assert Colour(t.attr, []) == t.attr;
    assert Colour(t.attr, [p]) == Attribute(t.attr, p) by { assert [p][..0] == []; }
  }

  /** However many arguments there are, each that means something overrides those before it. */
  lemma MoreColours(attr: nat, par: seq<nat>, p: nat)
    ensures Colour(attr, []) == attr && Colour(attr, par + [p]) == Attribute(Colour(attr, par), p)
  {
    assert (par + [p])[..|par|] == par;
  }

  /** A question mark before the argument is noted, and makes no difference. */
  lemma Questioned(t: Term, p: nat, final: Byte, erase: Byte)
    requires TermOk(t) && t.state == 0 && p < UINT && Final(final)
    ensures var u := Feed(t, [27, '[' as int, '?' as int] + (Decimal(p) + [final]), erase);
            u.(ques := false) == Feed(t, Seq1(p, final), erase)
  {
    Fed1(t, p, final, erase);
    var rest: seq<Byte> := Decimal(p) + [final];
    var bytes := [27, '[' as int, '?' as int] + rest;
    var t1, t2 := t.(state := 1), t.(state := 2);
    var t3 := Opened(t).(ques := true);
    assert bytes[1..][1..][1..] == rest && bytes[1..][1..][0] == '?' as int && bytes[1..][0] == '[' as int;
    assert Step(t, 27, erase) == t1 && Step(t1, '[' as int, erase) == t2 && Step(t2, '?' as int, erase) == t3;
    assert Feed(t, bytes, erase) == Feed(t1, bytes[1..], erase) == Feed(t2, bytes[1..][1..], erase) == Feed(t3, rest, erase);
    FeedAppend(t3, Decimal(p), [final], erase);
    FeedDecimal(t3, p, erase);
    FeedOne(t3.(par := t3.par[0 := p]), final, erase);
    assert t3.par[0 := p] == With(t, 0, p, 0).par;
    ControlQues(With(t, 0, p, 0), final);
  }

  lemma ControlQues(t: Term, final: Byte)
    requires TermOk(t) && !t.ques
    ensures Control(t.(ques := true), final).(ques := false) == Control(t, final)
  {
    hide RollUp, RollDown, Open, Close, Erase, Colour, Count, Sub32, Add32, AtLeast1, Less1;
  }

  /** ESC [ top ; bottom r sets the region, if it is one; the cursor stays where it is. */
  lemma RegionSet(t: Term, p: nat, q: nat, erase: Byte)
    requires TermOk(t) && t.state == 0 && p < UINT && q < UINT
    ensures var u := Feed(t, Seq2(p, q, 'r' as int), erase);
            var first, last := if p == 0 then 1 else p, if q == 0 then 25 else q;
            && Moved(t, u.(top := t.top, bottom := t.bottom)) && u.x == t.x && u.y == t.y
            && if first <= last <= 25 then u.top == first - 1 && u.bottom == last else u.top == t.top && u.bottom == t.bottom
  {
    Fed2(t, p, q, 'r' as int, erase);
  }

  /** ESC [ s and ESC [ u. */
  lemma CursorSaved(t: Term, p: nat, erase: Byte, u: Term)
    requires TermOk(t) && t.state == 0 && p < UINT
    ensures Fed(t, p, 's' as int, erase, u) ==>
              Moved(t, u.(savedX := t.savedX, savedY := t.savedY)) && u.x == u.savedX == t.x && u.y == u.savedY == t.y
    ensures Fed(t, p, 'u' as int, erase, u) ==> Moved(t, u) && u.x == t.savedX && u.y == t.savedY
  {
    if Fed(t, p, 's' as int, erase, u) { FedIs(t, p, 's' as int, erase, u); }
    if Fed(t, p, 'u' as int, erase, u) { FedIs(t, p, 'u' as int, erase, u); }
    hide Fed;
  }

  /** A sequence with another final byte changes nothing. */
  lemma Unknown(t: Term, p: nat, final: Byte, erase: Byte, u: Term)
    requires TermOk(t) && t.state == 0 && p < UINT && Final(final) && Fed(t, p, final, erase, u)
    requires final !in {'@' as int, 'A' as int, 'B' as int, 'C' as int, 'D' as int, 'E' as int, 'F' as int, 'G' as int,
                        'H' as int, 'J' as int, 'K' as int, 'L' as int, 'M' as int, 'P' as int, '`' as int, 'a' as int,
                        'd' as int, 'e' as int, 'f' as int, 'm' as int, 'r' as int, 's' as int, 'u' as int}
    ensures Moved(t, u) && u.x == t.x && u.y == t.y
  {
    FedIs(t, p, final, erase, u);
    hide Fed;
  }
}
