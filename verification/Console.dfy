/** kernel/chr_drv/console.c in its own form: the screen is a window on video memory, which
    an EGA or VGA card scrolls by moving the window. Addresses are in 16-bit cells from
    video_mem_start. */
module Console {
  import opened Screen

  class Display {
    const vram: array<int>
    const ega: bool
    const cols: nat
    const lines: nat
    var origin: nat
    var scrEnd: nat
    var pos: nat
    var x: nat
    var y: nat
    var top: nat
    var bottom: nat
    var attr: int
    var state: nat
    var npar: nat
    var par: seq<nat>
    var ques: bool
    var savedX: nat
    var savedY: nat

    /** The window is in video memory and pos is the cursor's cell. */
    ghost predicate Valid()
      reads this, vram
    {
      && Window() && Screen.Ok(Abs()) && pos == origin + Pos(Abs())
    }

    ghost predicate Window()
      reads this
    {
      scrEnd == origin + lines * cols <= vram.Length && (!ega ==> origin == 0)
    }

    ghost function Cells(): (c: seq<int>)
      reads this, vram
      requires Window()
      ensures |c| == lines * cols
    {
      vram[..][origin..scrEnd]
    }

    /** What is on the screen. */
    ghost function Abs(): Term
      reads this, vram
      requires Window()
    {
      Term(cols, lines, Cells(), x, y, top, bottom, attr, state, npar, par, ques, savedX, savedY)
    }

    /** con_init, for a cursor the BIOS left on the screen. */
    constructor (vram: array<int>, ega: bool, cols: nat, lines: nat, x: nat, y: nat)
      requires cols >= 8 && cols % 2 == 0 && x <= cols && y < lines && lines * cols <= vram.Length
      ensures Valid() && this.vram == vram && this.ega == ega
      ensures Abs() == Term(cols, lines, vram[..lines * cols], x, y, 0, lines, 0x07, 0, 0, seq(NPAR, _ => 0), false, 0, 0)
    {
      this.vram, this.ega, this.cols, this.lines := vram, ega, cols, lines;
      origin, scrEnd := 0, lines * cols;
      top, bottom := 0, lines;
      this.x, this.y := x, y;
      pos := y * cols + x;
      attr, state, npar, par, ques, savedX, savedY := 0x07, 0, 0, seq(NPAR, _ => 0), false, 0, 0;
    }

    // ---- string instructions ----------------------------------------------------------

    /** rep stosw, upwards. */
    method StosW(at: nat, count: nat)
      requires at + count <= vram.Length
      modifies vram
      ensures vram[..] == Fill(old(vram[..]), at, count)
    {
      var i := 0;
      while i < count
        invariant i <= count
        invariant forall k {:trigger vram[k]} | 0 <= k < vram.Length :: vram[k] == if at <= k < at + i then ERASE else old(vram[k])
      {
        vram[at + i] := ERASE;
        i := i + 1;
      }
      FillIs(old(vram[..]), vram[..], at, count);
    }

    /** rep movsl, upwards, two cells at a time, to where the source begins or before it. */
    method MovsL(dst: nat, src: nat, count: nat)
      requires dst <= src && src + 2 * count <= vram.Length
      modifies vram
      ensures vram[..] == Moved(old(vram[..]), dst, src, 2 * count)
    {
      var i := 0;
      while i < count
        invariant i <= count
        invariant forall k {:trigger vram[k]} | 0 <= k < vram.Length ::
          vram[k] == if dst <= k < dst + 2 * i then old(vram[k - dst + src]) else old(vram[k])
      {
        vram[dst + 2 * i] := vram[src + 2 * i];
        vram[dst + 2 * i + 1] := vram[src + 2 * i + 1];
        i := i + 1;
      }
      MovedIs(old(vram[..]), vram[..], dst, src, 2 * count);
    }

    /** std; rep movsl: downwards, from the last two cells of the source. */
    method MovsLDown(dst: nat, src: nat, count: nat)
      requires src <= dst && dst + 2 * count <= vram.Length
      modifies vram
      ensures vram[..] == Moved(old(vram[..]), dst, src, 2 * count)
    {
      var i := count;
      while i > 0
        invariant 0 <= i <= count
        invariant forall k {:trigger vram[k]} | 0 <= k < vram.Length ::
          vram[k] == if dst + 2 * i <= k < dst + 2 * count then old(vram[k - dst + src]) else old(vram[k])
      {
        i := i - 1;
        vram[dst + 2 * i + 1] := vram[src + 2 * i + 1];
        vram[dst + 2 * i] := vram[src + 2 * i];
      }
      MovedIs(old(vram[..]), vram[..], dst, src, 2 * count);
    }

    method CopyAndBlank(dst: nat, src: nat, n: nat, blank: nat)
      requires n % 2 == 0 && dst <= src && src + n <= vram.Length && blank + cols <= vram.Length
      modifies vram
      ensures vram[..] == Fill(Moved(old(vram[..]), dst, src, n), blank, cols)
    {
      MovsL(dst, src, n / 2);
      StosW(blank, cols);
    }

    method CopyDownAndBlank(dst: nat, src: nat, n: nat, blank: nat)
      requires n % 2 == 0 && src <= dst && dst + n <= vram.Length && blank + cols <= vram.Length
      modifies vram
      ensures vram[..] == Fill(Moved(old(vram[..]), dst, src, n), blank, cols)
    {
      MovsLDown(dst, src, n / 2);
      StosW(blank, cols);
    }

    // ---- scrolling --------------------------------------------------------------------

    /** The memory move both kinds of card use for part of the screen. */
    method MoveUp(from: nat, to: nat)
      requires Window() && cols % 2 == 0 && from < to <= lines
      modifies vram
      ensures from * cols + (to - from - 1) * cols + cols <= |old(Cells())|
      ensures Cells() == Up(old(Cells()), from * cols, (to - from - 1) * cols, cols)
      ensures SameOutside(old(vram[..]), vram[..], origin, scrEnd)
    {
      Rows(cols, from, to);
      if to < lines { Rows(cols, to, lines); }
      Halves(to - from - 1, cols);
      CellsUp(from * cols, (to - from - 1) * cols);
    }

    method CellsUp(a: nat, n: nat)
      requires origin + a + n + cols <= scrEnd <= vram.Length && n % 2 == 0
      modifies vram
      ensures vram[..][origin..scrEnd] == Up(old(vram[..][origin..scrEnd]), a, n, cols)
      ensures SameOutside(old(vram[..]), vram[..], origin, scrEnd)
    {
      ghost var r := UpInWindow(vram[..], origin, scrEnd, a, n, cols);
      CopyAndBlank(origin + a, origin + a + cols, n, origin + a + n);
      assert vram[..] == r;
    }

    method MoveDown(from: nat, to: nat)
      requires Window() && cols % 2 == 0 && from < to <= lines
      modifies vram
      ensures from * cols + (to - from - 1) * cols + cols <= |old(Cells())|
      ensures Cells() == Down(old(Cells()), from * cols, (to - from - 1) * cols, cols)
      ensures SameOutside(old(vram[..]), vram[..], origin, scrEnd)
    {
      Rows(cols, from, to);
      if to < lines { Rows(cols, to, lines); }
      Halves(to - from - 1, cols);
      CellsDown(from * cols, (to - from - 1) * cols);
    }

    method CellsDown(a: nat, n: nat)
      requires origin + a + n + cols <= scrEnd <= vram.Length && n % 2 == 0
      modifies vram
      ensures vram[..][origin..scrEnd] == Down(old(vram[..][origin..scrEnd]), a, n, cols)
      ensures SameOutside(old(vram[..]), vram[..], origin, scrEnd)
    {
      ghost var r := DownInWindow(vram[..], origin, scrEnd, a, n, cols);
      CopyDownAndBlank(origin + a + cols, origin + a, n, origin + a);
      assert vram[..] == r;
    }

    /** scrup, for the lines from..to: the whole screen of an EGA moves its window on. */
    method ScrUp(from: nat, to: nat)
      requires Valid() && from < to <= lines
      modifies this`origin, this`scrEnd, this`pos, vram
      ensures Valid() && Abs() == ScrollUp(old(Abs()), from, to)
      ensures SameOutside(old(vram[..]), vram[..], origin, scrEnd)
    {
      if ega && from == 0 && to == lines {
        MoveWindow();
      } else {
        MoveUp(from, to);
      }
    }

    method MoveWindow()
      requires Valid() && ega
      modifies this`origin, this`scrEnd, this`pos, vram
      ensures Valid() && Abs() == ScrollUp(old(Abs()), 0, lines)
      ensures SameOutside(old(vram[..]), vram[..], origin, scrEnd)
    {
      Rows(cols, 0, lines);
      Halves(lines - 1, cols);
      SlideWindow((lines - 1) * cols);
    }

    /** n: all cells of the window but the last line. Nothing outside the new window changes. */
    method SlideWindow(n: nat)
      requires scrEnd == origin + n + cols <= vram.Length && n % 2 == 0 && pos >= origin
      modifies this`origin, this`scrEnd, this`pos, vram
      ensures scrEnd == origin + n + cols <= vram.Length && pos - origin == old(pos) - old(origin)
      ensures vram[..][origin..scrEnd] == Up(old(vram[..][origin..scrEnd]), 0, n, cols)
      ensures SameOutside(old(vram[..]), vram[..], origin, scrEnd)
    {
      origin := origin + cols;
      pos := pos + cols;
      scrEnd := scrEnd + cols;
      if scrEnd > vram.Length {
        WrapBack(n, origin - cols);
      } else {
        BlankLast(n, origin - cols);
      }
    }

    /** Past the end of video memory: the lines that stay go to its start, and the window too. */
    method WrapBack(n: nat, ghost o: nat)
      requires n % 2 == 0 && origin == o + cols && scrEnd == origin + n + cols && o + n + cols <= vram.Length && origin <= pos
      modifies this`origin, this`scrEnd, this`pos, vram
      ensures origin == 0 && scrEnd == n + cols && pos == old(pos) - old(origin)
      ensures vram[..][origin..scrEnd] == Up(old(vram[..])[o..o + n + cols], 0, n, cols)
      ensures SameOutside(old(vram[..]), vram[..], origin, scrEnd)
    {
      ghost var r := WrappedWindow(vram[..], o, n, cols);
      CopyAndBlank(0, origin, n, n);
      scrEnd := scrEnd - origin;
      pos := pos - origin;
      origin := 0;
      assert vram[..] == r;
    }

    method BlankLast(n: nat, ghost o: nat)
      requires origin == o + cols && scrEnd == origin + n + cols <= vram.Length
      modifies vram
      ensures vram[..][origin..scrEnd] == Up(old(vram[..])[o..o + n + cols], 0, n, cols)
      ensures SameOutside(old(vram[..]), vram[..], origin, scrEnd)
    {
      ghost var r := NewWindow(vram[..], o, n, cols);
      StosW(scrEnd - cols, cols);
      assert vram[..] == r;
    }

    method ScrDown(from: nat, to: nat)
      requires Valid() && from < to <= lines
      modifies vram
      ensures Valid() && Abs() == ScrollDown(old(Abs()), from, to)
      ensures SameOutside(old(vram[..]), vram[..], origin, scrEnd)
    {
      MoveDown(from, to);
    }

    /** insert_line and delete_line borrow the scrolling region. */
    method InsertOrDeleteLine(insert: bool)
      requires Valid()
      modifies this`origin, this`scrEnd, this`pos, vram
      ensures Valid() && Abs() == if insert then InsertLine(old(Abs())) else DeleteLine(old(Abs()))
      ensures SameOutside(old(vram[..]), vram[..], origin, scrEnd)
    {
      if insert {
        ScrDown(y, lines);
      } else {
        ScrUp(y, lines);
      }
    }

    // ---- the cursor -------------------------------------------------------------------

    method GotoXy(newX: int, newY: int)
      requires Valid()
      modifies this`x, this`y, this`pos
      ensures Valid() && Abs() == GotoXY(old(Abs()), newX, newY)
    {
      if U(newX) > cols || U(newY) >= lines {
        return;
      }
      x := U(newX);
      y := U(newY);
      pos := origin + y * cols + x;
    }

    method Lf()
      requires Valid()
      modifies this`y, this`origin, this`scrEnd, this`pos, vram
      ensures Valid() && Abs() == LineFeed(old(Abs()))
      ensures SameOutside(old(vram[..]), vram[..], origin, scrEnd)
    {
      if y + 1 < bottom {
        Rows(cols, y, y + 1);
        y := y + 1;
        pos := pos + cols;
        NextRow(y - 1, cols);
        return;
      }
      ScrUp(top, bottom);
    }

    method Ri()
      requires Valid()
      modifies this`y, this`pos, vram
      ensures Valid() && Abs() == ReverseIndex(old(Abs()))
      ensures SameOutside(old(vram[..]), vram[..], origin, scrEnd)
    {
      if y > top {
        NextRow(y - 1, cols);
        y := y - 1;
        pos := pos - cols;
        return;
      }
      ScrDown(top, bottom);
    }

    method Cr()
      requires Valid()
      modifies this`x, this`pos
      ensures Valid() && Abs() == old(Abs()).(x := 0)
    {
      pos := pos - x;
      x := 0;
    }

    // ---- cells ------------------------------------------------------------------------

    method SetCell(p: nat, v: int)
      requires Window() && origin <= p < scrEnd
      modifies vram
      ensures Cells() == old(Cells())[p - origin := v] && SameOutside(old(vram[..]), vram[..], origin, scrEnd)
    {
      vram[p] := v;
      assert vram[..] == old(vram[..])[p := v];
    }

    method FillCells(start: nat, count: nat)
      requires Window() && origin <= start && start + count <= scrEnd
      modifies vram
      ensures Cells() == Fill(old(Cells()), start - origin, count) && SameOutside(old(vram[..]), vram[..], origin, scrEnd)
    {
      ghost var r := FillInWindow(vram[..], origin, scrEnd, start, count);
      StosW(start, count);
      assert vram[..] == r;
    }

    method Del()
      requires Valid()
      modifies this`x, this`pos, vram
      ensures Valid() && Abs() == Delete(old(Abs())) && SameOutside(old(vram[..]), vram[..], origin, scrEnd)
    {
      PosFits(Abs());
      if x > 0 {
        StepBack();
        SetCell(pos, ERASE);
      }
    }

    method StepBack()
      requires Valid() && x > 0
      modifies this`x, this`pos
      ensures Valid() && Abs() == old(Abs()).(x := old(x) - 1)
    {
      pos := pos - 1;
      x := x - 1;
    }

    method CsiJ(p: nat)
      requires Valid()
      modifies vram
      ensures Valid() && Abs() == EraseDisplay(old(Abs()), p) && SameOutside(old(vram[..]), vram[..], origin, scrEnd)
    {
      PosFits(Abs());
      if p == 0 {
        FillCells(pos, scrEnd - pos);
      } else if p == 1 {
        FillCells(origin, pos - origin);
      } else if p == 2 {
        FillCells(origin, cols * lines);
      }
    }

    method CsiK(p: nat)
      requires Valid()
      modifies vram
      ensures Valid() && Abs() == EraseLine(old(Abs()), p) && SameOutside(old(vram[..]), vram[..], origin, scrEnd)
    {
      PosFits(Abs());
      if p == 0 {
        if x >= cols {
          NoFill(Cells(), Pos(Abs()));
          return;
        }
        FillCells(pos, cols - x);
      } else if p == 1 {
        FillCells(pos - x, if x < cols then x else cols);
      } else if p == 2 {
        FillCells(pos - x, cols);
      }
    }

    method InsertCharHere()
      requires Valid()
      modifies vram
      ensures Valid() && Abs() == InsertChar(old(Abs()))
      ensures SameOutside(old(vram[..]), vram[..], origin, scrEnd)
    {
      PosFits(Abs());
      var i, p, carry := x, pos, ERASE;
      ghost var m := vram[..];
      while i < cols
        invariant x <= i <= cols && p == pos + i - x && |m| == vram.Length
        invariant carry == if p == pos then ERASE else m[p - 1]
        invariant forall k {:trigger vram[k]} | 0 <= k < vram.Length ::
          vram[k] == if k == pos < p then ERASE else if pos < k < p then m[k - 1] else m[k]
      {
        var tmp := vram[p];
        vram[p] := carry;
        carry := tmp;
        p := p + 1;
        i := i + 1;
      }
      if x < cols {
        ShiftedDown(m, vram[..], origin, scrEnd, pos, cols - x - 1);
      } else {
        assert vram[..] == m;
      }
    }

    method DeleteCharHere()
      requires Valid()
      modifies vram
      ensures Valid() && Abs() == DeleteChar(old(Abs()))
      ensures SameOutside(old(vram[..]), vram[..], origin, scrEnd)
    {
      PosFits(Abs());
      if x >= cols {
        return;
      }
      var i, p := x + 1, pos;
      ghost var m := vram[..];
      while i < cols
        invariant x < i <= cols && p == pos + i - x - 1 && |m| == vram.Length
        invariant forall k {:trigger vram[k]} | 0 <= k < vram.Length :: vram[k] == if pos <= k < p then m[k + 1] else m[k]
      {
        vram[p] := vram[p + 1];
        p := p + 1;
        i := i + 1;
      }
      vram[p] := ERASE;
      ShiftedUp(m, vram[..], origin, scrEnd, pos, cols - x - 1);
    }

    method DoOnce(op: Op)
      requires Valid()
      modifies this`origin, this`scrEnd, this`pos, vram
      ensures Valid() && Abs() == Once(old(Abs()), op)
      ensures SameOutside(old(vram[..]), vram[..], origin, scrEnd)
    {
      match op
      case InsertChars => InsertCharHere();
      case DeleteChars => DeleteCharHere();
      case InsertLines => InsertOrDeleteLine(true);
      case DeleteLines => InsertOrDeleteLine(false);
    }

    /** csi_at, csi_P, csi_L and csi_M. */
    method Repeat(op: Op, nr: nat, max: nat)
      requires Valid()
      modifies this`origin, this`scrEnd, this`pos, vram
      ensures Valid() && Abs() == Times(old(Abs()), op, Clamp(nr, max))
    {
      var n := nr;
      if n > max {
        n := max;
      } else if n == 0 {
        n := 1;
      }
      while n > 0
        invariant n >= 0 && Valid() && Times(old(Abs()), op, Clamp(nr, max)) == Times(Abs(), op, n)
      {
        DoOnce(op);
        n := n - 1;
      }
    }

    method CsiM()
      requires Valid()
      modifies this`attr
      ensures Valid() && Abs() == old(Abs()).(attr := Attributes(par, 0, npar, old(attr)))
    {
      var i := 0;
      while i <= npar
        invariant 0 <= i <= npar + 1 && Attributes(par, 0, npar, old(attr)) == Attributes(par, i, npar, attr)
        invariant Valid() && Abs() == old(Abs()).(attr := attr)
        decreases npar + 1 - i
      {
        match par[i] {
          case 0 => attr := 0x07;
          case 1 => attr := 0x0f;
          case 4 => attr := 0x0f;
          case 7 => attr := 0x70;
          case 27 => attr := 0x07;
          case _ =>
        }
        i := i + 1;
      }
    }

    // ---- con_write --------------------------------------------------------------------

    /** The cursor past the last column goes to the next line. */
    method Wrap()
      requires Window() && Screen.Ok(Abs().(x := 0)) && cols <= x <= 2 * cols && pos == origin + y * cols + x
      modifies this`x, this`y, this`origin, this`scrEnd, this`pos, vram
      ensures Valid() && Abs() == WrapLine(old(Abs()))
      ensures SameOutside(old(vram[..]), vram[..], origin, scrEnd)
    {
      x := x - cols;
      pos := pos - cols;
      Lf();
    }

    method PrintChar(c: int)
      requires Valid()
      modifies this`x, this`y, this`origin, this`scrEnd, this`pos, vram
      ensures Valid() && Abs() == Print(old(Abs()), c)
      ensures SameOutside(old(vram[..]), vram[..], origin, scrEnd)
    {
      if x >= cols {
        Wrap();
      }
      ghost var m := vram[..];
      StoreHere(c);
      OutsideTrans(old(vram[..]), m, vram[..], origin, scrEnd);
    }

    /** The character goes into the cursor's cell and the cursor on. */
    method StoreHere(c: int)
      requires Valid() && x < cols
      modifies this`x, this`pos, vram
      ensures Valid() && Pos(old(Abs())) < |old(Abs()).cells|
      ensures Abs() == Store(old(Abs()), Pos(old(Abs())), attr * 256 + c).(x := old(x) + 1)
      ensures SameOutside(old(vram[..]), vram[..], origin, scrEnd)
    {
      PosFits(Abs());
      SetCell(pos, attr * 256 + c);
      StepOn();
    }

    method StepOn()
      requires Valid() && x < cols
      modifies this`x, this`pos
      ensures Valid() && Abs() == old(Abs()).(x := old(x) + 1)
    {
      pos := pos + 1;
      x := x + 1;
    }

    method TabStop()
      requires Valid()
      modifies this`x, this`y, this`origin, this`scrEnd, this`pos, vram
      ensures Valid() && Abs() == Tab(old(Abs()))
      ensures SameOutside(old(vram[..]), vram[..], origin, scrEnd)
    {
      var c := 8 - x % 8;
      x := x + c;
      pos := pos + c;
      if x > cols {
        Wrap();
      }
    }

    method NormalChar(c: int, erase: int)
      requires Valid()
      modifies this, vram
      ensures Valid() && Abs() == Normal(old(Abs()), c, erase)
      ensures SameOutside(old(vram[..]), vram[..], origin, scrEnd)
    {
      if 31 < c < 127 {
        PrintChar(c);
      } else if c == 27 {
        SetState(1);
      } else if c == 10 || c == 11 || c == 12 {
        Lf();
      } else if c == 13 {
        Cr();
      } else if c == erase {
        Del();
      } else if c == 8 {
        if x > 0 {
          StepBack();
        }
      } else if c == 9 {
        TabStop();
      }
    }

    method EscapeChar(c: int)
      requires Valid()
      modifies this, vram
      ensures Valid() && Abs() == Escape(old(Abs()), c)
      ensures SameOutside(old(vram[..]), vram[..], origin, scrEnd)
    {
      SetState(0);
      if c == '[' as int {
        SetState(2);
      } else if c == 'E' as int {
        GotoXy(0, y + 1);
      } else if c == 'M' as int {
        Ri();
      } else if c == 'D' as int {
        Lf();
      } else if c == 'Z' as int {
      } else if x == '7' as int {
        SaveCur();
      } else if x == '8' as int {
        GotoXy(savedX, savedY);
      }
    }

    method SaveCur()
      requires Valid()
      modifies this`savedX, this`savedY
      ensures Valid() && Abs() == old(Abs()).(savedX := x, savedY := y)
    {
      savedX, savedY := x, y;
    }

    method SetPar(i: nat, v: nat)
      requires Valid() && i < NPAR
      modifies this`par
      ensures Valid() && Abs() == old(Abs()).(par := old(par)[i := v])
    {
      par := par[i := v];
    }

    method SetState(s: nat)
      requires Valid()
      modifies this`state
      ensures Valid() && Abs() == old(Abs()).(state := s)
    {
      state := s;
    }

    method GoAbsolute(c: int)
      requires Valid() && Lowers(c)
      modifies this`par, this`x, this`y, this`pos
      ensures Valid() && Abs() == MoveAbsolute(old(Abs()), c)
    {
      LowerPars(c);
      var (newX, newY) := Place(x, y, c, par[0], par[1]);
      GotoXy(newX, newY);
    }

    /** Positions are counted from 1, or not given. */
    method LowerPars(c: int)
      requires Valid()
      modifies this`par
      ensures Valid()
      ensures Abs() == old(Abs()).(par := old(par)[0 := Lowered(old(par)[0])][1 := if c == 'H' as int || c == 'f' as int then Lowered(old(par)[1]) else old(par)[1]])
    {
      SetPar(0, if par[0] > 0 then par[0] - 1 else par[0]);
      SetPar(1, if (c == 'H' as int || c == 'f' as int) && par[1] > 0 then par[1] - 1 else par[1]);
    }

    method GoRelative(c: int)
      requires Valid() && Bumps(c)
      modifies this`par, this`x, this`y, this`pos
      ensures Valid() && Abs() == MoveRelative(old(Abs()), c)
    {
      SetPar(0, if par[0] == 0 then par[0] + 1 else par[0]);
      var (newX, newY) := Target(x, y, c, par[0]);
      GotoXy(newX, newY);
    }

    method ChangeCells(c: int)
      requires Valid()
      modifies this`origin, this`scrEnd, this`pos, vram
      ensures Valid() && Abs() == EditCells(old(Abs()), c)
    {
      if c == 'J' as int {
        CsiJ(par[0]);
      } else if c == 'K' as int {
        CsiK(par[0]);
      } else if c == 'L' as int {
        Repeat(InsertLines, par[0], lines);
      } else if c == 'M' as int {
        Repeat(DeleteLines, par[0], lines);
      } else if c == 'P' as int {
        Repeat(DeleteChars, par[0], cols);
      } else if c == '@' as int {
        Repeat(InsertChars, par[0], cols);
      }
    }

    method FinalChar(c: int)
      requires Valid()
      modifies this, vram
      ensures Valid() && Abs() == Final(old(Abs()), c)
    {
      SetState(0);
      if Lowers(c) {
        GoAbsolute(c);
      } else if Bumps(c) {
        GoRelative(c);
      } else if c == 'm' as int {
        CsiM();
      } else if c == 'r' as int {
        SetRegion();
      } else if c == 's' as int {
        SaveCur();
      } else if c == 'u' as int {
        GotoXy(savedX, savedY);
      } else {
        ChangeCells(c);
      }
    }

    method SetLines(from: nat, to: nat)
      requires Valid() && from < to <= lines
      modifies this`top, this`bottom
      ensures Valid() && Abs() == old(Abs()).(top := from, bottom := to)
    {
      top, bottom := from, to;
    }

    method SetRegion()
      requires Valid()
      modifies this`par, this`top, this`bottom
      ensures Valid() && Abs() == Region(old(Abs()))
    {
      SetPar(0, if par[0] > 0 then par[0] - 1 else par[0]);
      SetPar(1, if par[1] == 0 then lines else par[1]);
      if par[0] < par[1] <= lines {
        SetLines(par[0], par[1]);
      }
    }

    method ParamChar(c: int)
      requires Valid()
      modifies this, vram
      ensures Valid() && Abs() == Params(old(Abs()), c)
    {
      if c == ';' as int && npar < NPAR - 1 {
        npar := npar + 1;
      } else if '0' as int <= c <= '9' as int {
        par := par[npar := U(10 * par[npar] + c - '0' as int)];
      } else {
        FinalChar(c);
      }
    }

    method ClearParams()
      requires Valid()
      modifies this`par, this`npar
      ensures Valid() && Abs() == old(Abs()).(par := seq(NPAR, _ => 0), npar := 0)
    {
      npar := 0;
      var i := 0;
      while i < NPAR
        invariant 0 <= i <= NPAR == |par| && npar == 0 && forall k | 0 <= k < i :: par[k] == 0
        invariant Valid() && Abs() == old(Abs()).(par := par, npar := 0)
      {
        par := par[i := 0];
        i := i + 1;
      }
      assert par == seq(NPAR, _ => 0);
    }

    method PutChar(c: int, erase: int)
      requires Valid()
      modifies this, vram
      ensures Valid() && Abs() == Put(old(Abs()), c, erase)
    {
      if state == 0 {
        NormalChar(c, erase);
      } else if state == 1 {
        EscapeChar(c);
      } else if state == 2 {
        ClearParams();
        state := 3;
        ques := c == '?' as int;
        if !ques {
          ParamChar(c);
        }
      } else if state == 3 {
        ParamChar(c);
      } else if state == 4 {
        FinalChar(c);
      }
    }

    /** con_write: what is on the screen afterwards does not depend on the card or on where
        the window is; only Screen.Write of the characters does. */
    method ConWrite(cs: seq<int>, erase: int)
      requires Valid()
      modifies this, vram
      ensures Valid() && Abs() == Write(old(Abs()), cs, erase)
    {
      var nr := 0;
      assert cs[0..] == cs;
      while nr < |cs|
        invariant 0 <= nr <= |cs| && Valid() && Write(old(Abs()), cs, erase) == Write(Abs(), cs[nr..], erase)
      {
        assert cs[nr..][1..] == cs[nr + 1..];
        PutChar(cs[nr], erase);
        nr := nr + 1;
      }
    }
  }

  /** Whatever is written, an EGA that moves its window and a card that moves memory show the
      same lines and have the same cursor. */
  method SameOnBothCards(fast: Display, plain: Display, cs: seq<int>, erase: int)
    requires fast.Valid() && plain.Valid() && fast != plain && fast.vram != plain.vram
    requires fast.ega && !plain.ega && fast.Abs() == plain.Abs()
    modifies fast, fast.vram, plain, plain.vram
    ensures fast.Valid() && plain.Valid() && fast.Abs() == plain.Abs() && plain.origin == 0
  {
    fast.ConWrite(cs, erase);
    plain.ConWrite(cs, erase);
  }

  lemma NextRow(y: nat, cols: nat)
    ensures (y + 1) * cols == y * cols + cols
  {
  }

  lemma NoFill(cells: seq<int>, at: nat)
    requires at <= |cells|
    ensures Fill(cells, at, 0) == cells
  {
  }

  lemma FillInWindow(m: seq<int>, o: nat, e: nat, at: nat, n: nat) returns (r: seq<int>)
    requires o <= at && at + n <= e <= |m|
    ensures r == Fill(m, at, n) && r[o..e] == Fill(m[o..e], at - o, n) && SameOutside(m, r, o, e)
  {
    r := Fill(m, at, n);
  }

  lemma ShiftedDown(m: seq<int>, r: seq<int>, o: nat, e: nat, p: nat, n: nat)
    requires o <= p && p + n + 1 <= e <= |m| == |r|
    requires forall k {:trigger r[k]} | 0 <= k < |r| :: r[k] == if k == p then ERASE else if p < k < p + n + 1 then m[k - 1] else m[k]
    ensures r[o..e] == Down(m[o..e], p - o, n, 1) && SameOutside(m, r, o, e)
  {
  }

  lemma ShiftedUp(m: seq<int>, r: seq<int>, o: nat, e: nat, p: nat, n: nat)
    requires o <= p && p + n + 1 <= e <= |m| == |r|
    requires forall k {:trigger r[k]} | 0 <= k < |r| :: r[k] == if p <= k < p + n then m[k + 1] else if k == p + n then ERASE else m[k]
    ensures r[o..e] == Up(m[o..e], p - o, n, 1) && SameOutside(m, r, o, e)
  {
  }

  /** Whole rows of an even number of columns are whole longs. */
  lemma Halves(rows: nat, cols: nat)
    requires cols % 2 == 0
    ensures rows * cols % 2 == 0 && 2 * (rows * cols / 2) == rows * cols
  {
    var h := cols / 2;
    assert rows * cols == 2 * (rows * h);
  }

  /** n cells from src on copied to dst. */
  function Moved(m: seq<int>, dst: nat, src: nat, n: nat): (r: seq<int>)
    requires dst + n <= |m| && src + n <= |m|
    ensures |r| == |m|
  {
    seq(|m|, k requires 0 <= k < |m| => if dst <= k < dst + n then m[k - dst + src] else m[k])
  }

  predicate Kept(m: seq<int>, r: seq<int>, k: nat) {
    k < |m| == |r| && r[k] == m[k]
  }

  /** Cells outside lo..hi are as they were. */
  ghost predicate SameOutside(m: seq<int>, r: seq<int>, lo: nat, hi: nat) {
    |m| == |r| && forall k: nat {:trigger Kept(m, r, k)} | k < |m| && !(lo <= k < hi) :: Kept(m, r, k)
  }

  lemma OutsideTrans(m: seq<int>, n: seq<int>, r: seq<int>, lo: nat, hi: nat)
    requires SameOutside(m, n, lo, hi) && SameOutside(n, r, lo, hi)
    ensures SameOutside(m, r, lo, hi)
  {
    forall k: nat | k < |m| && !(lo <= k < hi) ensures Kept(m, r, k) {
      assert Kept(m, n, k) && Kept(n, r, k);
    }
  }

  lemma FillIs(m: seq<int>, r: seq<int>, at: nat, n: nat)
    requires |r| == |m| && at + n <= |m|
    requires forall k {:trigger r[k]} | 0 <= k < |r| :: r[k] == if at <= k < at + n then ERASE else m[k]
    ensures r == Fill(m, at, n)
  {
  }

  lemma MovedIs(m: seq<int>, r: seq<int>, dst: nat, src: nat, n: nat)
    requires |r| == |m| && dst + n <= |m| && src + n <= |m|
    requires forall k {:trigger r[k]} | 0 <= k < |r| :: r[k] == if dst <= k < dst + n then m[k - dst + src] else m[k]
    ensures r == Moved(m, dst, src, n)
  {
  }

  /** The memory move, seen through a window o..e. */
  lemma UpInWindow(m: seq<int>, o: nat, e: nat, a: nat, n: nat, c: nat) returns (r: seq<int>)
    requires o <= e <= |m| && o + a + n + c <= e
    ensures r == Fill(Moved(m, o + a, o + a + c, n), o + a + n, c)
    ensures r[o..e] == Up(m[o..e], a, n, c) && SameOutside(m, r, o, e)
  {
    r := Fill(Moved(m, o + a, o + a + c, n), o + a + n, c);
    var w := m[o..e];
    forall k | 0 <= k < e - o ensures r[o..e][k] == Up(w, a, n, c)[k] {
      assert r[o..e][k] == r[o + k] && w[k] == m[o + k];
      assert a <= k < a + n ==> w[k + c] == m[o + k + c];
    }
  }

  lemma DownInWindow(m: seq<int>, o: nat, e: nat, a: nat, n: nat, c: nat) returns (r: seq<int>)
    requires o <= e <= |m| && o + a + n + c <= e
    ensures r == Fill(Moved(m, o + a + c, o + a, n), o + a, c)
    ensures r[o..e] == Down(m[o..e], a, n, c) && SameOutside(m, r, o, e)
  {
    r := Fill(Moved(m, o + a + c, o + a, n), o + a, c);
    var w := m[o..e];
    forall k | 0 <= k < e - o ensures r[o..e][k] == Down(w, a, n, c)[k] {
      assert r[o..e][k] == r[o + k] && w[k] == m[o + k];
      assert a + c <= k < a + n + c ==> w[k - c] == m[o + k - c];
    }
  }

  /** A window of n + c cells at o moved on by c, the last c blanked, shows what a move up does. */
  lemma NewWindow(m: seq<int>, o: nat, n: nat, c: nat) returns (r: seq<int>)
    requires o + n + c + c <= |m|
    ensures r == Fill(m, o + n + c, c)
    ensures r[o + c..o + c + n + c] == Up(m[o..o + n + c], 0, n, c) && SameOutside(m, r, o + c, o + c + n + c)
  {
    r := Fill(m, o + n + c, c);
    var w := m[o..o + n + c];
    forall k | 0 <= k < n + c ensures r[o + c..o + c + n + c][k] == Up(w, 0, n, c)[k] {
      assert r[o + c..o + c + n + c][k] == r[o + c + k] && w[k] == m[o + k];
      assert k < n ==> w[k + c] == m[o + k + c];
    }
  }

  /** And so does one copied back to the start of memory. */
  lemma WrappedWindow(m: seq<int>, o: nat, n: nat, c: nat) returns (r: seq<int>)
    requires o + n + c <= |m|
    ensures r == Fill(Moved(m, 0, o + c, n), n, c)
    ensures r[0..n + c] == Up(m[o..o + n + c], 0, n, c) && SameOutside(m, r, 0, n + c)
  {
    r := Fill(Moved(m, 0, o + c, n), n, c);
    var w := m[o..o + n + c];
    forall k | 0 <= k < n + c ensures r[0..n + c][k] == Up(w, 0, n, c)[k] {
      assert r[0..n + c][k] == r[k] && w[k] == m[o + k];
      assert k < n ==> w[k + c] == m[o + k + c];
    }
  }
}
