/** The console cell by cell: where the cursor goes, and what line i shows in column j, after
    every character and control sequence, against the numbers of console.c. */
module ScreenCells {
  import opened Screen

  /** Reading order of cells and cursor, which may be behind the last column. */
  lemma Order(cols: nat, i: nat, j: nat, y: nat, x: nat)
    requires j < cols && x <= cols
    ensures i * cols + j < y * cols + x <==> i < y || (i == y && j < x)
    ensures i * cols + j == y * cols + x && x < cols ==> i == y && j == x
  {
    if i < y { Rows(cols, i, y); }
    if y < i { Rows(cols, y, i); }
  }

  /** Nothing but cells and cursor changed. */
  predicate SameRest(t: Term, r: Term) {
    r == t.(cells := r.cells, x := r.x, y := r.y)
  }

  // ---- plain characters -----------------------------------------------------------------------

  /** A new line: down, or the region scrolled up by one. */
  lemma LineFeedIs(t: Term, i: nat, j: nat)
    requires Ok(t) && i < t.lines && j < t.cols
    ensures var r := LineFeed(t);
      && SameRest(t, r) && r.x == t.x && r.y == (if t.y + 1 < t.bottom then t.y + 1 else t.y)
      && CellAt(r, i, j) ==
         if t.y + 1 < t.bottom || i < t.top || i >= t.bottom then CellAt(t, i, j)
         else if i == t.bottom - 1 then 0x0720 else CellAt(t, i + 1, j)
  {
    if t.y + 1 >= t.bottom {
      ScrollUpLines(t, t.top, t.bottom, i, j);
    } else {
      MovedCells(t, LineFeed(t), i, j);
    }
  }

  lemma MovedCells(t: Term, r: Term, i: nat, j: nat)
    requires Ok(t) && Ok(r) && r.cells == t.cells && r.cols == t.cols && r.lines == t.lines && i < t.lines && j < t.cols
    ensures CellAt(r, i, j) == CellAt(t, i, j)
  {
  }

  lemma ReverseIs(t: Term, i: nat, j: nat)
    requires Ok(t) && i < t.lines && j < t.cols
    ensures var r := ReverseIndex(t);
      && SameRest(t, r) && r.x == t.x && r.y == (if t.y > t.top then t.y - 1 else t.y)
      && CellAt(r, i, j) ==
         if t.y > t.top || i < t.top || i >= t.bottom then CellAt(t, i, j)
         else if i == t.top then 0x0720 else CellAt(t, i - 1, j)
  {
    if t.y <= t.top {
      ScrollDownLines(t, t.top, t.bottom, i, j);
    } else {
      MovedCells(t, ReverseIndex(t), i, j);
    }
  }

  lemma StoreIs(t: Term, y: nat, x: nat, v: int, i: nat, j: nat)
    requires Ok(t) && y < t.lines && x < t.cols && i < t.lines && j < t.cols
    ensures y * t.cols + x < |t.cells|
    ensures CellAt(Store(t, y * t.cols + x, v), i, j) == if i == y && j == x then v else CellAt(t, i, j)
  {
    Rows(t.cols, y, t.lines);
    Rows(t.cols, i, t.lines);
    Order(t.cols, i, j, y, x);
  }

  /** A printable character appears at the cursor in the current attribute, on the next line if
      the cursor was behind the last column, and the cursor goes on. */
  lemma PrintIs(t: Term, c: int, i: nat, j: nat)
    requires Ok(t) && i < t.lines && j < t.cols
    ensures var r := Print(t, c); var u := if t.x >= t.cols then LineFeed(t.(x := 0)) else t;
      && SameRest(t, r) && r.y == u.y && r.x == u.x + 1 && u.x < t.cols
      && CellAt(r, i, j) == if i == u.y && j == u.x then t.attr * 256 + c else CellAt(u, i, j)
  {
    var u := if t.x >= t.cols then WrapLine(t) else t;
    assert t.x >= t.cols ==> t.(x := t.x - t.cols) == t.(x := 0);
    StoreIs(u, u.y, u.x, t.attr * 256 + c, i, j);
    MovedCells(Store(u, Pos(u), t.attr * 256 + c), Print(t, c), i, j);
  }

  /** The erase character blanks the cell before the cursor, not over the line's start. */
  lemma DeleteIs(t: Term, i: nat, j: nat)
    requires Ok(t) && i < t.lines && j < t.cols
    ensures var r := Delete(t);
      && SameRest(t, r) && r.y == t.y && r.x == (if t.x > 0 then t.x - 1 else 0)
      && CellAt(r, i, j) == if t.x > 0 && i == t.y && j == t.x - 1 then 0x0720 else CellAt(t, i, j)
  {
    if t.x > 0 {
      StoreIs(t.(x := t.x - 1), t.y, t.x - 1, 0x0720, i, j);
      MovedCells(t, t.(x := t.x - 1), i, j);
    }
  }

  /** What the other characters do. */
  lemma ControlIs(t: Term, c: int, erase: int)
    requires Ok(t)
    ensures var r := Normal(t, c, erase);
      && (32 <= c <= 126 ==> r == Print(t, c)) && (c == 27 ==> r == t.(state := 1))
      && (c in [10, 11, 12] ==> r == LineFeed(t)) && (c == 13 ==> r == t.(x := 0))
      && (c == erase && !(32 <= c <= 126) && c !in [27, 10, 11, 12, 13] ==> r == Delete(t))
      && (c == 8 && erase != 8 ==> r == t.(x := if t.x > 0 then t.x - 1 else 0))
      && (c == 9 && erase != 9 ==> var s := t.x / 8 * 8 + 8; r == if s <= t.cols then t.(x := s) else LineFeed(t.(x := s - t.cols)))
      && (!(32 <= c <= 126) && c !in [27, 10, 11, 12, 13, 8, 9, erase] ==> r == t)
  {
  }

  // ---- control sequences that move ----------------------------------------------------------------

  /** The cursor is at (x, y), both taken as 32-bit words, if that is on the screen, and nothing
      else happened but the end of the sequence. */
  predicate Goes(t: Term, r: Term, x: int, y: int) {
    && r == t.(state := 0, par := r.par, x := r.x, y := r.y)
    && (r.x, r.y) == if x % 0x1_0000_0000 <= t.cols && y % 0x1_0000_0000 < t.lines then (x % 0x1_0000_0000, y % 0x1_0000_0000) else (t.x, t.y)
  }

  /** Moves up and down, a missing count being 1. */
  lemma StepsTo(t: Term, c: char)
    requires Ok(t)
    ensures var r := Final(t, c as int); var n := if t.par[0] == 0 then 1 else t.par[0];
      && (c == 'A' ==> Goes(t, r, t.x, t.y - n)) && (c == 'B' || c == 'e' ==> Goes(t, r, t.x, t.y + n))
      && (c == 'E' ==> Goes(t, r, 0, t.y + n)) && (c == 'F' ==> Goes(t, r, 0, t.y - n))
  {
    if c in ['A', 'B', 'e', 'E', 'F'] {
      RelativeTo(t, c as int);
    }
  }

  /** And sideways. */
  lemma StepsAside(t: Term, c: char)
    requires Ok(t)
    ensures var r := Final(t, c as int); var n := if t.par[0] == 0 then 1 else t.par[0];
      && (c == 'C' || c == 'a' ==> Goes(t, r, t.x + n, t.y)) && (c == 'D' ==> Goes(t, r, t.x - n, t.y))
  {
    if c in ['C', 'a', 'D'] {
      RelativeTo(t, c as int);
    }
  }

  lemma RelativeTo(t: Term, c: int)
    requires Ok(t) && Bumps(c) && !Lowers(c)
    ensures var (x, y) := Target(t.x, t.y, c, Bumped(t.par[0])); Goes(t, Final(t, c), x, y)
  {
    var u := t.(state := 0);
    var n := Bumped(u.par[0]);
    var (x, y) := Target(u.x, u.y, c, n);
    GoesThere(t, u.(par := u.par[0 := n]), x, y);
  }

  /** Absolute ones, counted from 1. */
  lemma MovesTo(t: Term, c: char)
    requires Ok(t)
    ensures var r := Final(t, c as int);
      var p := if t.par[0] == 0 then 0 else t.par[0] - 1; var q := if t.par[1] == 0 then 0 else t.par[1] - 1;
      && (c == 'G' || c == '`' ==> Goes(t, r, p, t.y)) && (c == 'd' ==> Goes(t, r, t.x, p))
      && (c == 'H' || c == 'f' ==> Goes(t, r, q, p))
  {
    if c in ['G', '`', 'd', 'H', 'f'] {
      var u := t.(state := 0);
      var p, q := Lowered(u.par[0]), if c == 'H' || c == 'f' then Lowered(u.par[1]) else u.par[1];
      var (x, y) := Place(u.x, u.y, c as int, p, q);
      GoesThere(t, u.(par := u.par[0 := p][1 := q]), x, y);
    }
  }

  lemma GoesThere(t: Term, u: Term, x: int, y: int)
    requires Ok(t) && Ok(u) && u == t.(state := 0, par := u.par)
    ensures Goes(t, GotoXY(u, x, y), x, y)
  {
  }

  /** The sequences that set something. */
  lemma SetsTo(t: Term, c: char)
    requires Ok(t)
    ensures var r := Final(t, c as int);
      && (c == 's' ==> r == t.(state := 0, savedX := t.x, savedY := t.y))
      && (c == 'u' ==> Goes(t, r, t.savedX, t.savedY))
      && (c == 'r' ==>
            var p := if t.par[0] == 0 then 0 else t.par[0] - 1; var q := if t.par[1] == 0 then t.lines else t.par[1];
            r == t.(state := 0, par := r.par, top := if p < q <= t.lines then p else t.top, bottom := if p < q <= t.lines then q else t.bottom))
      && (c == 'm' && t.npar == 0 ==> r == t.(state := 0, attr :=
            match t.par[0] case 0 => 0x07 case 1 => 0x0f case 4 => 0x0f case 7 => 0x70 case 27 => 0x07 case _ => t.attr))
  {
    if c == 'm' && t.npar == 0 {
      assert Attributes(t.par, 1, 0, Attribute(t.par[0], t.attr)) == Attribute(t.par[0], t.attr);
    }
  }

  /** Several attributes in one sequence: the last that means anything decides. */
  lemma {:induction false} AttributesLast(par: seq<nat>, i: nat, npar: nat, attr: int, k: nat)
    requires i <= k <= npar < |par| && par[k] in [0, 1, 4, 7, 27] && forall m | k < m <= npar :: par[m] !in [0, 1, 4, 7, 27]
    ensures Attributes(par, i, npar, attr) == if par[k] == 7 then 0x70 else if par[k] == 1 || par[k] == 4 then 0x0f else 0x07
    decreases k - i
  {
    if i < k {
      AttributesLast(par, i + 1, npar, Attribute(par[i], attr), k);
    } else {
      AttributesNone(par, k + 1, npar, Attribute(par[k], attr));
    }
  }

  lemma {:induction false} AttributesNone(par: seq<nat>, i: nat, npar: nat, attr: int)
    requires npar < |par| && i <= npar + 1 && forall m | i <= m <= npar :: par[m] !in [0, 1, 4, 7, 27]
    ensures Attributes(par, i, npar, attr) == attr
    decreases npar + 1 - i
  {
    if i <= npar {
      AttributesNone(par, i + 1, npar, Attribute(par[i], attr));
    }
  }

  // ---- control sequences that erase and shift -----------------------------------------------------

  lemma FillAt(t: Term, from: nat, n: nat, i: nat, j: nat)
    requires Ok(t) && i < t.lines && j < t.cols && from + n <= |t.cells|
    ensures var r := t.(cells := Fill(t.cells, from, n));
      Ok(r) && CellAt(r, i, j) == if from <= i * t.cols + j < from + n then 0x0720 else CellAt(t, i, j)
  {
    Rows(t.cols, i, t.lines);
  }

  /** ESC [ J blanks from the cursor on, or up to it, or all. */
  lemma EraseDisplayIs(t: Term, p: nat, i: nat, j: nat)
    requires Ok(t) && i < t.lines && j < t.cols
    ensures var r := EraseDisplay(t, p);
      && SameRest(t, r) && r.x == t.x && r.y == t.y
      && CellAt(r, i, j) ==
         if (p == 0 && (i > t.y || (i == t.y && j >= t.x))) || (p == 1 && (i < t.y || (i == t.y && j < t.x))) || p == 2
         then 0x0720 else CellAt(t, i, j)
  {
    PosFits(t);
    Rows(t.cols, i, t.lines);
    Order(t.cols, i, j, t.y, t.x);
    if p == 0 { FillAt(t, Pos(t), |t.cells| - Pos(t), i, j); }
    if p == 1 { FillAt(t, 0, Pos(t), i, j); }
    if p == 2 { FillAt(t, 0, |t.cells|, i, j); }
  }

  /** ESC [ K the same within the cursor's line. */
  lemma EraseLineIs(t: Term, p: nat, i: nat, j: nat)
    requires Ok(t) && i < t.lines && j < t.cols
    ensures var r := EraseLine(t, p);
      && SameRest(t, r) && r.x == t.x && r.y == t.y
      && CellAt(r, i, j) ==
         if i == t.y && ((p == 0 && j >= t.x) || (p == 1 && j < t.x) || p == 2) then 0x0720 else CellAt(t, i, j)
  {
    PosFits(t);
    Order(t.cols, i, j, t.y, t.x);
    Order(t.cols, i, j, t.y, 0);
    Order(t.cols, i, j, t.y, t.cols);
    if p == 0 { FillAt(t, Pos(t), t.cols - t.x, i, j); }
    if p == 1 { FillAt(t, Pos(t) - t.x, t.x, i, j); }
    if p == 2 { FillAt(t, Pos(t) - t.x, t.cols, i, j); }
  }

  lemma ShiftedAt(t: Term, i: nat, j: nat)
    requires Ok(t) && i < t.lines && j < t.cols && t.x < t.cols
    ensures Pos(t) + t.cols - t.x <= |t.cells| && i * t.cols + j < |t.cells|
    ensures Pos(t) <= i * t.cols + j < Pos(t) + t.cols - t.x <==> i == t.y && j >= t.x
    ensures i == t.y ==> i * t.cols + j == Pos(t) + j - t.x
  {
    PosFits(t);
    Rows(t.cols, i, t.lines);
    Order(t.cols, i, j, t.y, t.x);
    Order(t.cols, i, j, t.y, t.cols);
  }

  /** One character in: the rest of the line moves right, the last one out. */
  lemma InsertCharIs(t: Term, i: nat, j: nat)
    requires Ok(t) && i < t.lines && j < t.cols
    ensures var r := InsertChar(t);
      && SameRest(t, r) && r.x == t.x && r.y == t.y
      && CellAt(r, i, j) == if i != t.y || j < t.x then CellAt(t, i, j) else if j == t.x then 0x0720 else CellAt(t, i, j - 1)
  {
    if t.x < t.cols {
      ShiftedAt(t, i, j);
    }
  }

  lemma DeleteCharIs(t: Term, i: nat, j: nat)
    requires Ok(t) && i < t.lines && j < t.cols
    ensures var r := DeleteChar(t);
      && SameRest(t, r) && r.x == t.x && r.y == t.y
      && CellAt(r, i, j) == if i != t.y || j < t.x then CellAt(t, i, j) else if j == t.cols - 1 then 0x0720 else CellAt(t, i, j + 1)
  {
    if t.x < t.cols {
      ShiftedAt(t, i, j);
    }
  }

  /** A line in at the cursor: the lines from there on move down, whatever the region. */
  lemma InsertLineIs(t: Term, i: nat, j: nat)
    requires Ok(t) && i < t.lines && j < t.cols
    ensures var r := InsertLine(t);
      && SameRest(t, r) && r.x == t.x && r.y == t.y
      && CellAt(r, i, j) == if i < t.y then CellAt(t, i, j) else if i == t.y then 0x0720 else CellAt(t, i - 1, j)
  {
    ScrollDownLines(t, t.y, t.lines, i, j);
  }

  lemma DeleteLineIs(t: Term, i: nat, j: nat)
    requires Ok(t) && i < t.lines && j < t.cols
    ensures var r := DeleteLine(t);
      && SameRest(t, r) && r.x == t.x && r.y == t.y
      && CellAt(r, i, j) == if i < t.y then CellAt(t, i, j) else if i == t.lines - 1 then 0x0720 else CellAt(t, i + 1, j)
  {
    ScrollUpLines(t, t.y, t.lines, i, j);
  }

  // ---- with counts ----------------------------------------------------------------------------------

  lemma {:induction false} InsertLinesIs(t: Term, n: nat, i: nat, j: nat)
    requires Ok(t) && i < t.lines && j < t.cols
    ensures var r := Times(t, InsertLines, n);
      && SameRest(t, r) && r.x == t.x && r.y == t.y
      && CellAt(r, i, j) == if i < t.y then CellAt(t, i, j) else if i < t.y + n then 0x0720 else CellAt(t, i - n, j)
    decreases n
  {
    if n > 0 {
      InsertLinesIs(InsertLine(t), n - 1, i, j);
      InsertLineIs(t, i, j);
      if i >= t.y + n - 1 {
        InsertLineIs(t, i - (n - 1), j);
      }
    }
  }

  lemma {:induction false} DeleteLinesIs(t: Term, n: nat, i: nat, j: nat)
    requires Ok(t) && i < t.lines && j < t.cols
    ensures var r := Times(t, DeleteLines, n);
      && SameRest(t, r) && r.x == t.x && r.y == t.y
      && CellAt(r, i, j) == if i < t.y then CellAt(t, i, j) else if i + n >= t.lines then 0x0720 else CellAt(t, i + n, j)
    decreases n
  {
    if n > 0 {
      DeleteLinesIs(DeleteLine(t), n - 1, i, j);
      DeleteLineIs(t, i, j);
      if i + n - 1 < t.lines {
        DeleteLineIs(t, i + (n - 1), j);
      }
    }
  }

  lemma {:induction false} InsertCharsIs(t: Term, n: nat, i: nat, j: nat)
    requires Ok(t) && i < t.lines && j < t.cols
    ensures var r := Times(t, InsertChars, n);
      && SameRest(t, r) && r.x == t.x && r.y == t.y
      && CellAt(r, i, j) == if i != t.y || j < t.x then CellAt(t, i, j) else if j < t.x + n then 0x0720 else CellAt(t, i, j - n)
    decreases n
  {
    if n > 0 {
      InsertCharsIs(InsertChar(t), n - 1, i, j);
      InsertCharIs(t, i, j);
      if j >= t.x + n - 1 {
        InsertCharIs(t, i, j - (n - 1));
      }
    }
  }

  lemma {:induction false} DeleteCharsIs(t: Term, n: nat, i: nat, j: nat)
    requires Ok(t) && i < t.lines && j < t.cols
    ensures var r := Times(t, DeleteChars, n);
      && SameRest(t, r) && r.x == t.x && r.y == t.y
      && CellAt(r, i, j) == if i != t.y || j < t.x then CellAt(t, i, j) else if j + n >= t.cols then 0x0720 else CellAt(t, i, j + n)
    decreases n
  {
    if n > 0 {
      DeleteCharsIs(DeleteChar(t), n - 1, i, j);
      DeleteCharIs(t, i, j);
      if j + n - 1 < t.cols {
        DeleteCharIs(t, i, j + (n - 1));
      }
    }
  }

  /** ESC [ n @ and ESC [ n P: the rest of the line moves by n, a missing count being 1. */
  lemma CharsTo(t: Term, c: char, i: nat, j: nat)
    requires Ok(t) && (c == '@' || c == 'P') && i < t.lines && j < t.cols
    ensures var r := Final(t, c as int); var n := if t.par[0] == 0 then 1 else t.par[0];
      && r == t.(state := 0, cells := r.cells)
      && CellAt(r, i, j) ==
         if i != t.y || j < t.x then CellAt(t, i, j)
         else if c == '@' then (if j < t.x + n then 0x0720 else CellAt(t, i, j - n))
         else if j + n >= t.cols then 0x0720 else CellAt(t, i, j + n)
  {
    var u, n := t.(state := 0), Clamp(t.par[0], t.cols);
    if c == '@' {
      assert Final(t, c as int) == Times(u, InsertChars, n);
      InsertCharsIs(u, n, i, j);
    } else {
      assert Final(t, c as int) == Times(u, DeleteChars, n);
      DeleteCharsIs(u, n, i, j);
    }
    assert forall k: nat | k < t.cols :: CellAt(u, i, k) == CellAt(t, i, k);
  }

  /** ESC [ n L and ESC [ n M: the lines from the cursor's on move by n. */
  lemma LinesTo(t: Term, c: char, i: nat, j: nat)
    requires Ok(t) && (c == 'L' || c == 'M') && i < t.lines && j < t.cols
    ensures var r := Final(t, c as int); var n := if t.par[0] == 0 then 1 else t.par[0];
      && r == t.(state := 0, cells := r.cells)
      && CellAt(r, i, j) ==
         if i < t.y then CellAt(t, i, j)
         else if c == 'L' then (if i < t.y + n then 0x0720 else CellAt(t, i - n, j))
         else if i + n >= t.lines then 0x0720 else CellAt(t, i + n, j)
  {
    var u, n := t.(state := 0), Clamp(t.par[0], t.lines);
    if c == 'L' {
      assert Final(t, c as int) == Times(u, InsertLines, n);
      InsertLinesIs(u, n, i, j);
    } else {
      assert Final(t, c as int) == Times(u, DeleteLines, n);
      DeleteLinesIs(u, n, i, j);
    }
    assert forall k: nat | k < t.lines :: CellAt(u, k, j) == CellAt(t, k, j);
  }

  /** ESC [ J and ESC [ K blank what is behind the cursor, before it, or both, on the screen or
      in the line. */
  lemma ErasesTo(t: Term, c: char, i: nat, j: nat)
    requires Ok(t) && (c == 'J' || c == 'K') && i < t.lines && j < t.cols
    ensures var r := Final(t, c as int); var behind := i > t.y || (i == t.y && j >= t.x);
      && r == t.(state := 0, cells := r.cells)
      && CellAt(r, i, j) ==
         if (c == 'J' || i == t.y) && (t.par[0] == 2 || (t.par[0] == 0 && behind) || (t.par[0] == 1 && !behind)) then 0x0720
         else CellAt(t, i, j)
  {
    var u := t.(state := 0);
    if c == 'J' { EraseDisplayIs(u, t.par[0], i, j); } else { EraseLineIs(u, t.par[0], i, j); }
    MovedCells(t, u, i, j);
  }

  // ---- whole sequences ------------------------------------------------------------------------------

  function Decimal(n: nat): (r: seq<int>)
    ensures r != [] && forall k | 0 <= k < |r| :: '0' as int <= r[k] <= '9' as int
  {
    (if n < 10 then [] else Decimal(n / 10)) + ['0' as int + n % 10]
  }

  /** The parameters as they are sent. */
  function Listed(ps: seq<nat>): (r: seq<int>)
    requires ps != []
    ensures r != [] && r[0] != '?' as int
  {
    if |ps| == 1 then Decimal(ps[0]) else Decimal(ps[0]) + [';' as int] + Listed(ps[1..])
  }

  lemma {:induction false} WriteJoin(t: Term, a: seq<int>, b: seq<int>, erase: int)
    requires Ok(t)
    ensures Write(t, a + b, erase) == Write(Write(t, a, erase), b, erase)
    decreases |a|
  {
    if a == [] {
      assert a + b == b;
    } else {
      assert (a + b)[1..] == a[1..] + b;
      WriteJoin(Put(t, a[0], erase), a[1..], b, erase);
    }
  }

  lemma WriteOne(t: Term, c: int, cs: seq<int>, erase: int)
    requires Ok(t)
    ensures Write(t, [c], erase) == Put(t, c, erase) && Write(t, [c] + cs, erase) == Write(Put(t, c, erase), cs, erase)
  {
    assert ([c] + cs)[1..] == cs && [c][1..] == [];
    assert Write(Put(t, c, erase), [], erase) == Put(t, c, erase);
  }

  lemma DigitRead(t: Term, m: nat, d: nat, erase: int)
    requires Ok(t) && t.state == 3 && d < 10 && 10 * m + d < 0x1_0000_0000
    ensures var u := t.(par := t.par[t.npar := m]); Ok(u) && Put(u, '0' as int + d, erase) == t.(par := t.par[t.npar := 10 * m + d])
  {
    var u := t.(par := t.par[t.npar := m]);
    assert Put(u, '0' as int + d, erase) == Params(u, '0' as int + d);
    assert u.par[u.npar := 10 * m + d] == t.par[t.npar := 10 * m + d];
  }

  lemma {:induction false} NumberRead(t: Term, n: nat, erase: int)
    requires Ok(t) && t.state == 3 && t.par[t.npar] == 0 && n < 0x1_0000_0000
    ensures Write(t, Decimal(n), erase) == t.(par := t.par[t.npar := n])
  {
    var m, d := n / 10, n % 10;
    DigitRead(t, m, d, erase);
    if n < 10 {
      assert Decimal(n) == ['0' as int + d] && t.par[t.npar := 0] == t.par;
      WriteOne(t, '0' as int + d, [], erase);
    } else {
      assert Decimal(n) == Decimal(m) + ['0' as int + d];
      WriteJoin(t, Decimal(m), ['0' as int + d], erase);
      NumberRead(t, m, erase);
      WriteOne(t.(par := t.par[t.npar := m]), '0' as int + d, [], erase);
    }
  }

  lemma SemicolonRead(t: Term, erase: int)
    requires Ok(t) && t.state == 3 && t.npar < 15
    ensures Put(t, ';' as int, erase) == t.(npar := t.npar + 1)
  {
    assert Put(t, ';' as int, erase) == Params(t, ';' as int);
  }

  /** A number and its semicolon. */
  lemma FirstRead(t: Term, n: nat, rest: seq<int>, erase: int)
    requires Ok(t) && t.state == 3 && t.npar < 15 && t.par[t.npar] == 0 && n < 0x1_0000_0000
    ensures var u := t.(npar := t.npar + 1, par := t.par[t.npar := n]);
      Ok(u) && Write(t, Decimal(n) + [';' as int] + rest, erase) == Write(u, rest, erase)
  {
    assert Decimal(n) + [';' as int] + rest == Decimal(n) + ([';' as int] + rest);
    WriteJoin(t, Decimal(n), [';' as int] + rest, erase);
    NumberRead(t, n, erase);
    var u := t.(par := t.par[t.npar := n]);
    WriteOne(u, ';' as int, rest, erase);
    SemicolonRead(u, erase);
  }

  lemma {:induction false} ListRead(t: Term, ps: seq<nat>, erase: int)
    requires Ok(t) && t.state == 3 && ps != [] && t.npar + |ps| <= 16
    requires forall k | t.npar <= k < 16 :: t.par[k] == 0
    requires forall k | 0 <= k < |ps| :: ps[k] < 0x1_0000_0000
    ensures Write(t, Listed(ps), erase) == t.(npar := t.npar + |ps| - 1, par := t.par[..t.npar] + ps + t.par[t.npar + |ps|..])
    decreases |ps|
  {
    if |ps| == 1 {
      NumberRead(t, ps[0], erase);
      assert t.par[t.npar := ps[0]] == t.par[..t.npar] + ps + t.par[t.npar + 1..];
    } else {
      FirstRead(t, ps[0], Listed(ps[1..]), erase);
      var next, par := t.npar + 1, t.par[t.npar := ps[0]];
      ListRead(t.(npar := next, par := par), ps[1..], erase);
      ListJoin(t.par, t.npar, ps);
    }
  }

  lemma ListJoin(par: seq<nat>, k: nat, ps: seq<nat>)
    requires |ps| > 1 && k + |ps| <= |par|
    ensures var p := par[k := ps[0]]; p[..k + 1] + ps[1..] + p[k + |ps|..] == par[..k] + ps + par[k + |ps|..]
  {
  }

  /** The state in which a final character finds the parameters ps. */
  function Holding(t: Term, ps: seq<nat>): Term
    requires 0 < |ps| <= 16
  {
    t.(state := 3, npar := |ps| - 1, ques := false, par := ps + Zeroes(16 - |ps|))
  }

  function Zeroes(n: nat): (r: seq<nat>) { seq(n, _ => 0) }

  /** ESC [ alone. */
  lemma OpeningRead(t: Term, cs: seq<int>, erase: int)
    requires Ok(t) && t.state == 0
    ensures Write(t, [27, '[' as int] + cs, erase) == Write(t.(state := 2), cs, erase)
  {
    var w := t.(state := 1);
    assert [27, '[' as int] + cs == [27] + (['[' as int] + cs);
    WriteOne(t, 27, ['[' as int] + cs, erase);
    assert Put(t, 27, erase) == Normal(t, 27, erase) == w;
    WriteOne(w, '[' as int, cs, erase);
    assert Put(w, '[' as int, erase) == Escape(w, '[' as int) == t.(state := 2);
  }

  /** The first character behind it clears the parameters. */
  lemma BracketRead(t: Term, cs: seq<int>, erase: int)
    requires Ok(t) && t.state == 2 && cs != [] && cs[0] != '?' as int
    ensures var v := t.(state := 3, npar := 0, par := Zeroes(16), ques := false); Ok(v) && Write(t, cs, erase) == Write(v, cs, erase)
  {
    var v := t.(state := 3, npar := 0, par := Zeroes(16), ques := false);
    assert Put(t, cs[0], erase) == Bracket(t, cs[0]) == Params(v, cs[0]) == Put(v, cs[0], erase);
  }

  /** ESC [, up to 16 numbers with semicolons between them, and a character that is neither: the
      character is obeyed with those numbers, those not sent being 0. */
  lemma SequenceRead(t: Term, ps: seq<nat>, c: char, erase: int)
    requires Ok(t) && t.state == 0 && 0 < |ps| <= 16 && c != ';' && !('0' <= c <= '9')
    requires forall k | 0 <= k < |ps| :: ps[k] < 0x1_0000_0000
    ensures Write(t, [27, '[' as int] + Listed(ps) + [c as int], erase) == Final(Holding(t, ps), c as int)
  {
    var text, v, r := Listed(ps), t.(state := 3, npar := 0, par := Zeroes(16), ques := false), Holding(t, ps);
    assert [27, '[' as int] + text + [c as int] == [27, '[' as int] + (text + [c as int]);
    OpeningRead(t, text + [c as int], erase);
    BracketRead(t.(state := 2), text + [c as int], erase);
    WriteJoin(v, text, [c as int], erase);
    ListRead(v, ps, erase);
    assert v.par[..0] + ps + v.par[|ps|..] == r.par;
    WriteOne(r, c as int, [], erase);
    assert Put(r, c as int, erase) == Params(r, c as int) == Final(r, c as int);
  }

  lemma CursorHeld(h: Term, y: nat, x: nat)
    requires Ok(h) && 1 <= y == h.par[0] < 0x1_0000_0000 && 1 <= x == h.par[1] < 0x1_0000_0000
    ensures var r := Final(h, 'H' as int);
      (r.x, r.y) == (if x <= h.cols + 1 && y <= h.lines then (x - 1, y - 1) else (h.x, h.y)) && r.cells == h.cells && r.state == 0
  {
    MovesTo(h, 'H');
    assert (x - 1) % 0x1_0000_0000 == x - 1 && (y - 1) % 0x1_0000_0000 == y - 1;
  }

  /** ESC [ line ; column H puts the cursor there, counted from 1, if that is on the screen. */
  lemma CursorSent(t: Term, y: nat, x: nat, erase: int)
    requires Ok(t) && t.state == 0 && 1 <= y < 0x1_0000_0000 && 1 <= x < 0x1_0000_0000
    ensures var r := Write(t, [27, '[' as int] + Listed([y, x]) + ['H' as int], erase);
      (r.x, r.y) == (if x <= t.cols + 1 && y <= t.lines then (x - 1, y - 1) else (t.x, t.y)) && r.cells == t.cells && r.state == 0
  {
    var h := Holding(t, [y, x]);
    SequenceRead(t, [y, x], 'H', erase);
    CursorHeld(h, y, x);
  }

  /** After ESC, and after ESC [. */
  lemma SequenceIs(t: Term, c: char, erase: int)
    requires Ok(t)
    ensures var r := Put(t, c as int, erase); var u := t.(state := 0);
      && (t.state == 0 ==> r == Normal(t, c as int, erase))
      && (t.state == 1 && c == '[' ==> r == t.(state := 2)) && (t.state == 1 && c == 'Z' ==> r == u)
      && (t.state == 1 && c == 'D' ==> r == LineFeed(u)) && (t.state == 1 && c == 'M' ==> r == ReverseIndex(u))
      && (t.state == 1 && c == 'E' ==> r == if t.y + 1 < t.lines && t.lines <= LIMIT then u.(x := 0, y := t.y + 1) else GotoXY(u, 0, t.y + 1))
      && (t.state == 2 ==> var v := t.(state := 3, npar := 0, par := seq(16, _ => 0), ques := c == '?'); r == if c == '?' then v else Params(v, c as int))
      && (t.state == 3 ==> r == Params(t, c as int))
      && (t.state in [3, 4] && c !in ";0123456789" ==> r == Final(t, c as int))
  {
  }
}
