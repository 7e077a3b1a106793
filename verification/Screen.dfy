/** What kernel/chr_drv/console.c shows, on values: a grid of cells, a cursor, a scrolling
    region and an escape-sequence parser. No video origin: that is the driver's affair. */
module Screen {

  const ERASE: int := 0x0720
  const NPAR: nat := 16
  const LIMIT: int := 0x1_0000_0000

  /** The cells row by row; x may be cols, behind the last one. */
  datatype Term = Term(cols: nat, lines: nat, cells: seq<int>, x: nat, y: nat, top: nat, bottom: nat, attr: int,
                       state: nat, npar: nat, par: seq<nat>, ques: bool, savedX: nat, savedY: nat)

  predicate Ok(t: Term) {
    && t.cols >= 8 && t.cols % 2 == 0 && |t.cells| == t.lines * t.cols
    && t.x <= t.cols && t.y < t.lines && t.top < t.bottom <= t.lines
    && t.npar < NPAR == |t.par| && t.savedX <= t.cols && t.savedY < t.lines
  }

  lemma Rows(cols: nat, i: nat, j: nat)
    requires i < j
    ensures i * cols + cols <= j * cols && (j - i - 1) * cols == j * cols - i * cols - cols
  {
    assert (i + 1) * cols <= j * cols && (i + 1) * cols == i * cols + cols;
  }

  // ---- cells ------------------------------------------------------------------------

  /** n cells from `from` on are blank. */
  function Fill(cells: seq<int>, from: nat, n: nat): (r: seq<int>)
    requires from + n <= |cells|
    ensures |r| == |cells|
  {
    seq(|cells|, k requires 0 <= k < |cells| => if from <= k < from + n then ERASE else cells[k])
  }

  /** n cells behind the c at `a` move c down; the last c are blank. */
  function Up(cells: seq<int>, a: nat, n: nat, c: nat): (r: seq<int>)
    requires a + n + c <= |cells|
    ensures |r| == |cells|
  {
    seq(|cells|, k requires 0 <= k < |cells| =>
      if a <= k < a + n then cells[k + c] else if a + n <= k < a + n + c then ERASE else cells[k])
  }

  /** n cells at `a` move c up; the first c are blank. */
  function Down(cells: seq<int>, a: nat, n: nat, c: nat): (r: seq<int>)
    requires a + n + c <= |cells|
    ensures |r| == |cells|
  {
    seq(|cells|, k requires 0 <= k < |cells| =>
      if a <= k < a + c then ERASE else if a + c <= k < a + n + c then cells[k - c] else cells[k])
  }

  /** Shifting up and down again loses only what left the region. */
  lemma DownUndoesUp(cells: seq<int>, a: nat, n: nat, c: nat)
    requires a + n + c <= |cells|
    ensures Down(Up(cells, a, n, c), a, n, c) == Fill(cells, a, c)
    ensures Up(Down(cells, a, n, c), a, n, c) == Fill(cells, a + n, c)
  {
  }

  // ---- operations -------------------------------------------------------------------

  function Pos(t: Term): nat { t.y * t.cols + t.x }

  lemma PosFits(t: Term)
    requires Ok(t)
    ensures t.y * t.cols + t.cols <= |t.cells|
  {
    Rows(t.cols, t.y, t.lines);
  }

  function U(v: int): nat { v % LIMIT }

  /** gotoxy: out of the screen, nothing happens; left of it or above is far beyond it. */
  function GotoXY(t: Term, x: int, y: int): (r: Term)
    requires Ok(t)
    ensures Ok(r)
    ensures U(x) > t.cols || U(y) >= t.lines ==> r == t
    ensures U(x) <= t.cols && U(y) < t.lines ==> r == t.(x := r.x, y := r.y) && (x - r.x) % LIMIT == 0 && (y - r.y) % LIMIT == 0
  {
    if U(x) > t.cols || U(y) >= t.lines then t else t.(x := U(x), y := U(y))
  }

  function ScrollUp(t: Term, top: nat, bottom: nat): (r: Term)
    requires Ok(t) && top < bottom <= t.lines
    ensures Ok(r)
  {
    Rows(t.cols, top, bottom);
    if bottom < t.lines then Rows(t.cols, bottom, t.lines); t.(cells := Up(t.cells, top * t.cols, (bottom - top - 1) * t.cols, t.cols))
    else t.(cells := Up(t.cells, top * t.cols, (bottom - top - 1) * t.cols, t.cols))
  }

  function ScrollDown(t: Term, top: nat, bottom: nat): (r: Term)
    requires Ok(t) && top < bottom <= t.lines
    ensures Ok(r)
  {
    Rows(t.cols, top, bottom);
    if bottom < t.lines then Rows(t.cols, bottom, t.lines); t.(cells := Down(t.cells, top * t.cols, (bottom - top - 1) * t.cols, t.cols))
    else t.(cells := Down(t.cells, top * t.cols, (bottom - top - 1) * t.cols, t.cols))
  }

  /** The cell in line i, column j. */
  function CellAt(t: Term, i: nat, j: nat): int
    requires Ok(t) && i < t.lines && j < t.cols
  {
    Rows(t.cols, i, t.lines);
    t.cells[i * t.cols + j]
  }

  lemma LineOrder(cols: nat, i: nat, k: nat, j: nat)
    requires j < cols
    ensures i < k ==> i * cols + j < k * cols
    ensures i >= k ==> i * cols + j >= k * cols
    ensures (i + 1) * cols + j == i * cols + j + cols && (i > 0 ==> (i - 1) * cols + j == i * cols + j - cols)
  {
    if i < k { Rows(cols, i, k); }
    if i > k { Rows(cols, k, i); }
    assert (i + 1) * cols == i * cols + cols;
    assert i > 0 ==> (i - 1) * cols == i * cols - cols;
  }

  /** Line by line: a scroll up shows each line of the region one higher, and a blank one last. */
  lemma ScrollUpLines(t: Term, top: nat, bottom: nat, i: nat, j: nat)
    requires Ok(t) && top < bottom <= t.lines && i < t.lines && j < t.cols
    ensures CellAt(ScrollUp(t, top, bottom), i, j) ==
      if top <= i < bottom - 1 then CellAt(t, i + 1, j) else if i == bottom - 1 then ERASE else CellAt(t, i, j)
  {
    Rows(t.cols, i, t.lines);
    Rows(t.cols, top, bottom);
    LineOrder(t.cols, i, top, j);
    LineOrder(t.cols, i, bottom - 1, j);
    LineOrder(t.cols, i, bottom, j);
    assert (bottom - 1) * t.cols == top * t.cols + (bottom - top - 1) * t.cols by { LastLine(t.cols, top, bottom); }
  }

  lemma ScrollDownLines(t: Term, top: nat, bottom: nat, i: nat, j: nat)
    requires Ok(t) && top < bottom <= t.lines && i < t.lines && j < t.cols
    ensures CellAt(ScrollDown(t, top, bottom), i, j) ==
      if top < i < bottom then CellAt(t, i - 1, j) else if i == top then ERASE else CellAt(t, i, j)
  {
    Rows(t.cols, i, t.lines);
    Rows(t.cols, top, bottom);
    LineOrder(t.cols, i, top, j);
    LineOrder(t.cols, i, top + 1, j);
    LineOrder(t.cols, i, bottom, j);
    assert (top + 1) * t.cols == top * t.cols + t.cols;
    assert bottom * t.cols == top * t.cols + (bottom - top - 1) * t.cols + t.cols;
  }

  lemma LastLine(cols: nat, top: nat, bottom: nat)
    requires top < bottom
    ensures (bottom - 1) * cols == top * cols + (bottom - top - 1) * cols
  {
    assert (bottom - 1) * cols == (top + (bottom - top - 1)) * cols;
  }

  function LineFeed(t: Term): (r: Term)
    requires Ok(t)
    ensures Ok(r)
  {
    if t.y + 1 < t.bottom then t.(y := t.y + 1) else ScrollUp(t, t.top, t.bottom)
  }

  function ReverseIndex(t: Term): (r: Term)
    requires Ok(t)
    ensures Ok(r)
  {
    if t.y > t.top then t.(y := t.y - 1) else ScrollDown(t, t.top, t.bottom)
  }

  function Store(t: Term, at: nat, v: int): (r: Term)
    requires Ok(t) && at < |t.cells|
    ensures Ok(r)
  {
    t.(cells := t.cells[at := v])
  }

  function Delete(t: Term): (r: Term)
    requires Ok(t)
    ensures Ok(r)
  {
    PosFits(t);
    if t.x > 0 then Store(t.(x := t.x - 1), Pos(t) - 1, ERASE) else t
  }

  /** csi_J. */
  function EraseDisplay(t: Term, par: nat): (r: Term)
    requires Ok(t)
    ensures Ok(r)
  {
    PosFits(t);
    if par == 0 then t.(cells := Fill(t.cells, Pos(t), |t.cells| - Pos(t)))
    else if par == 1 then t.(cells := Fill(t.cells, 0, Pos(t)))
    else if par == 2 then t.(cells := Fill(t.cells, 0, |t.cells|))
    else t
  }

  /** csi_K. */
  function EraseLine(t: Term, par: nat): (r: Term)
    requires Ok(t)
    ensures Ok(r)
  {
    PosFits(t);
    if par == 0 then t.(cells := Fill(t.cells, Pos(t), t.cols - t.x))
    else if par == 1 then t.(cells := Fill(t.cells, Pos(t) - t.x, t.x))
    else if par == 2 then t.(cells := Fill(t.cells, Pos(t) - t.x, t.cols))
    else t
  }

  function InsertChar(t: Term): (r: Term)
    requires Ok(t)
    ensures Ok(r)
  {
    PosFits(t);
    if t.x < t.cols then t.(cells := Down(t.cells, Pos(t), t.cols - t.x - 1, 1)) else t
  }

  function DeleteChar(t: Term): (r: Term)
    requires Ok(t)
    ensures Ok(r)
  {
    PosFits(t);
    if t.x < t.cols then t.(cells := Up(t.cells, Pos(t), t.cols - t.x - 1, 1)) else t
  }

  /** From the cursor's line to the end of the screen, whatever the region. */
  function InsertLine(t: Term): (r: Term)
    requires Ok(t)
    ensures Ok(r)
  {
    ScrollDown(t, t.y, t.lines)
  }

  function DeleteLine(t: Term): (r: Term)
    requires Ok(t)
    ensures Ok(r)
  {
    ScrollUp(t, t.y, t.lines)
  }

  /** A line inserted and deleted again costs only the last line of the screen. */
  lemma DeleteUndoesInsert(t: Term)
    requires Ok(t)
    ensures |t.cells| >= t.cols
    ensures DeleteLine(InsertLine(t)) == t.(cells := Fill(t.cells, |t.cells| - t.cols, t.cols))
  {
    Rows(t.cols, t.y, t.lines);
    DownUndoesUp(t.cells, t.y * t.cols, (t.lines - t.y - 1) * t.cols, t.cols);
  }

  datatype Op = InsertChars | DeleteChars | InsertLines | DeleteLines

  function Once(t: Term, op: Op): (r: Term)
    requires Ok(t)
    ensures Ok(r)
  {
    match op
    case InsertChars => InsertChar(t)
    case DeleteChars => DeleteChar(t)
    case InsertLines => InsertLine(t)
    case DeleteLines => DeleteLine(t)
  }

  function Times(t: Term, op: Op, n: nat): (r: Term)
    requires Ok(t)
    ensures Ok(r)
    decreases n
  {
    if n == 0 then t else Times(Once(t, op), op, n - 1)
  }

  /** csi_at, csi_P, csi_L, csi_M: a count of 0 is 1, and no more than there is room for. */
  function Clamp(n: nat, max: nat): nat { if n > max then max else if n == 0 then 1 else n }

  function Attribute(par: nat, attr: int): int {
    if par == 0 then 0x07 else if par == 1 then 0x0f else if par == 4 then 0x0f else if par == 7 then 0x70
    else if par == 27 then 0x07 else attr
  }

  /** csi_m over par[i..npar]. */
  function Attributes(par: seq<nat>, i: nat, npar: nat, attr: int): int
    requires npar < |par|
    decreases npar + 1 - i
  {
    if i > npar then attr else Attributes(par, i + 1, npar, Attribute(par[i], attr))
  }

  // ---- the parser -------------------------------------------------------------------

  /** A wrap to the next line, taken when the cursor is past the last column. */
  function WrapLine(t: Term): (r: Term)
    requires Ok(t.(x := 0)) && t.cols <= t.x <= 2 * t.cols
    ensures Ok(r)
  {
    LineFeed(t.(x := t.x - t.cols))
  }

  function Print(t: Term, c: int): (r: Term)
    requires Ok(t)
    ensures Ok(r)
  {
    var u := if t.x >= t.cols then WrapLine(t) else t;
    assert u.x < u.cols;
    PosFits(u);
    Store(u, Pos(u), u.attr * 256 + c).(x := u.x + 1)
  }

  function Tab(t: Term): (r: Term)
    requires Ok(t)
    ensures Ok(r)
  {
    var x := t.x + (8 - t.x % 8);
    if x > t.cols then WrapLine(t.(x := x)) else t.(x := x)
  }

  function Normal(t: Term, c: int, erase: int): (r: Term)
    requires Ok(t)
    ensures Ok(r)
  {
    if 31 < c < 127 then Print(t, c)
    else if c == 27 then t.(state := 1)
    else if c == 10 || c == 11 || c == 12 then LineFeed(t)
    else if c == 13 then t.(x := 0)
    else if c == erase then Delete(t)
    else if c == 8 then (if t.x > 0 then t.(x := t.x - 1) else t)
    else if c == 9 then Tab(t)
    else t
  }

  /** After ESC. 7 and 8 are looked for in the column, not in the character. */
  function Escape(t: Term, c: int): (r: Term)
    requires Ok(t)
    ensures Ok(r)
  {
    var u := t.(state := 0);
    if c == '[' as int then u.(state := 2)
    else if c == 'E' as int then GotoXY(u, 0, u.y + 1)
    else if c == 'M' as int then ReverseIndex(u)
    else if c == 'D' as int then LineFeed(u)
    else if c == 'Z' as int then u
    else if u.x == '7' as int then u.(savedX := u.x, savedY := u.y)
    else if u.x == '8' as int then GotoXY(u, u.savedX, u.savedY)
    else u
  }

  /** The columns and lines are 32-bit words. */
  predicate Words(t: Term) { t.cols < LIMIT && t.lines <= LIMIT }

  predicate AfterEscape(c: int) { c in ['[' as int, 'E' as int, 'M' as int, 'D' as int, 'Z' as int] }

  /** Any character without a meaning of its own after ESC saves the cursor in column '7',
      restores it in column '8', and does nothing elsewhere. */
  lemma EscapeByColumn(t: Term, c: int)
    requires Ok(t) && Words(t) && !AfterEscape(c)
    ensures Escape(t, c) ==
      if t.x == '7' as int then t.(state := 0, savedX := t.x, savedY := t.y)
      else if t.x == '8' as int then t.(state := 0, x := t.savedX, y := t.savedY)
      else t.(state := 0)
  {
  }

  /** ESC 7 saves the cursor if and only if it is in column '7', or is the saved one already. */
  lemma EscapeSavesIff(t: Term)
    requires Ok(t) && Words(t)
    ensures Escape(t, '7' as int) == t.(state := 0, savedX := t.x, savedY := t.y) <==>
      t.x == '7' as int || (t.savedX == t.x && t.savedY == t.y)
  {
    EscapeByColumn(t, '7' as int);
  }

  /** ESC 8 restores the cursor if and only if it is in column '8', or is the saved one already. */
  lemma EscapeRestoresIff(t: Term)
    requires Ok(t) && Words(t)
    ensures Escape(t, '8' as int) == t.(state := 0, x := t.savedX, y := t.savedY) <==>
      t.x == '8' as int || (t.savedX == t.x && t.savedY == t.y)
  {
    EscapeByColumn(t, '8' as int);
  }

  /** A cursor at column 3 that ESC 7 does not save and ESC 8 does not restore; and one at
      column 55 that ESC 8 saves. */
  lemma EscapeIgnoresDigit(t: Term, u: Term)
    requires Ok(t) && Words(t) && t.x == 3 && t.savedX == 0
    requires u == t.(x := 55) && Ok(u)
    ensures Escape(t, '7' as int).savedX == 0 && Escape(t, '8' as int).x == 3 && Escape(u, '8' as int).savedX == 55
  {
    EscapeByColumn(t, '7' as int);
    EscapeByColumn(t, '8' as int);
    EscapeByColumn(u, '8' as int);
  }

  function Bumped(n: nat): nat { if n == 0 then 1 else n }

  function Lowered(n: nat): nat { if n > 0 then n - 1 else 0 }

  predicate Lowers(c: int) { c in ['G' as int, '`' as int, 'd' as int, 'H' as int, 'f' as int] }

  predicate Bumps(c: int) {
    c in ['A' as int, 'B' as int, 'e' as int, 'C' as int, 'a' as int, 'D' as int, 'E' as int, 'F' as int]
  }

  /** Where an absolute move leads, its parameters counted from 1. */
  function Place(x: nat, y: nat, c: int, p: nat, q: nat): (int, int) {
    if c == 'G' as int || c == '`' as int then (p, y)
    else if c == 'd' as int then (x, p)
    else (q, p)
  }

  function MoveAbsolute(t: Term, c: int): (r: Term)
    requires Ok(t)
    ensures Ok(r)
  {
    var p, q := Lowered(t.par[0]), if c == 'H' as int || c == 'f' as int then Lowered(t.par[1]) else t.par[1];
    var (x, y) := Place(t.x, t.y, c, p, q);
    GotoXY(t.(par := t.par[0 := p][1 := q]), x, y)
  }

  /** Where n steps lead. */
  function Target(x: nat, y: nat, c: int, n: nat): (int, int) {
    if c == 'A' as int then (x, y - n)
    else if c == 'B' as int || c == 'e' as int then (x, y + n)
    else if c == 'C' as int || c == 'a' as int then (x + n, y)
    else if c == 'D' as int then (x - n, y)
    else if c == 'E' as int then (0, y + n)
    else (0, y - n)
  }

  /** Relative moves: a parameter of 0 is 1. */
  function MoveRelative(t: Term, c: int): (r: Term)
    requires Ok(t)
    ensures Ok(r)
  {
    var n := Bumped(t.par[0]);
    var (x, y) := Target(t.x, t.y, c, n);
    GotoXY(t.(par := t.par[0 := n]), x, y)
  }

  /** The control sequences that edit cells. */
  function EditCells(t: Term, c: int): (r: Term)
    requires Ok(t)
    ensures Ok(r)
  {
    var p := t.par[0];
    if c == 'J' as int then EraseDisplay(t, p)
    else if c == 'K' as int then EraseLine(t, p)
    else if c == 'L' as int then Times(t, InsertLines, Clamp(p, t.lines))
    else if c == 'M' as int then Times(t, DeleteLines, Clamp(p, t.lines))
    else if c == 'P' as int then Times(t, DeleteChars, Clamp(p, t.cols))
    else if c == '@' as int then Times(t, InsertChars, Clamp(p, t.cols))
    else t
  }

  /** The final character of a control sequence. */
  function Final(t: Term, c: int): (r: Term)
    requires Ok(t)
    ensures Ok(r)
  {
    var u := t.(state := 0);
    if Lowers(c) then MoveAbsolute(u, c)
    else if Bumps(c) then MoveRelative(u, c)
    else if c == 'm' as int then u.(attr := Attributes(u.par, 0, u.npar, u.attr))
    else if c == 'r' as int then Region(u)
    else if c == 's' as int then u.(savedX := u.x, savedY := u.y)
    else if c == 'u' as int then GotoXY(u, u.savedX, u.savedY)
    else EditCells(u, c)
  }

  /** Set the scrolling region, if it is one. */
  function Region(t: Term): (r: Term)
    requires Ok(t)
    ensures Ok(r)
  {
    var p, q := Lowered(t.par[0]), if t.par[1] == 0 then t.lines else t.par[1];
    var u := t.(par := t.par[0 := p][1 := q]);
    if p < q <= t.lines then u.(top := p, bottom := q) else u
  }

  function Params(t: Term, c: int): (r: Term)
    requires Ok(t)
    ensures Ok(r)
  {
    if c == ';' as int && t.npar < NPAR - 1 then t.(npar := t.npar + 1)
    else if '0' as int <= c <= '9' as int then t.(par := t.par[t.npar := U(10 * t.par[t.npar] + c - '0' as int)])
    else Final(t, c)
  }

  function Bracket(t: Term, c: int): (r: Term)
    requires Ok(t)
    ensures Ok(r)
  {
    var u := t.(par := seq(NPAR, _ => 0), npar := 0, state := 3, ques := c == '?' as int);
    if u.ques then u else Params(u, c)
  }

  /** One character of con_write; `erase` is the terminal's erase character. */
  function Put(t: Term, c: int, erase: int): (r: Term)
    requires Ok(t)
    ensures Ok(r)
  {
    if t.state == 0 then Normal(t, c, erase)
    else if t.state == 1 then Escape(t, c)
    else if t.state == 2 then Bracket(t, c)
    else if t.state == 3 then Params(t, c)
    else if t.state == 4 then Final(t, c)
    else t
  }

  function Write(t: Term, cs: seq<int>, erase: int): (r: Term)
    requires Ok(t)
    ensures Ok(r)
    decreases |cs|
  {
    if cs == [] then t else Write(Put(t, cs[0], erase), cs[1..], erase)
  }
}
