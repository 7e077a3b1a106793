/** The queues of include/linux/tty.h, and copy_to_cooked and the reading loop of tty_read,
    in their own form. */
module Tty {
  import opened Ring
  import opened LineDiscipline

  const TTY_BUF_SIZE: nat := 1024

  class Queue {
    const buf: array<int>
    var head: nat
    var tail: nat
    var data: int

    ghost predicate Valid()
      reads this
    {
      buf.Length == TTY_BUF_SIZE && head < TTY_BUF_SIZE && tail < TTY_BUF_SIZE
    }

    ghost function Chars(): (c: seq<int>)
      reads this, buf
      requires Valid()
      ensures |c| <= CAPACITY
    {
      Contents(buf[..], head, tail)
    }

    constructor ()
      ensures Valid() && fresh(buf) && Chars() == [] && data == 0
    {
      buf := new int[TTY_BUF_SIZE];
      head, tail, data := 0, 0, 0;
    }

    predicate Empty()
      reads this, buf
      requires Valid()
      ensures Empty() <==> Chars() == []
    {
      head == tail
    }

    function Left(): (n: nat)
      reads this, buf
      requires Valid()
      ensures n == CAPACITY - |Chars()|
    {
      MaskIs(head, tail, TTY_BUF_SIZE);
      (tail - head - 1) % TTY_BUF_SIZE
    }

    function Last(): (c: int)
      reads this, buf
      requires Valid() && Chars() != []
      ensures c == Chars()[|Chars()| - 1]
    {
      MaskIs(head, tail, TTY_BUF_SIZE);
      var n := Used(head, tail, TTY_BUF_SIZE) - 1;
      assert Contents(buf[..], head, tail)[n] == buf[Wrap(tail + n, TTY_BUF_SIZE)];
      buf[(head - 1) % TTY_BUF_SIZE]
    }

    /** DEC(head): forgets the last character. */
    method DecHead()
      requires Valid() && Chars() != []
      modifies `head
      ensures Valid() && Chars() == old(Chars())[..|old(Chars())| - 1]
    {
      MaskIs(head, tail, TTY_BUF_SIZE);
      ghost var was := Chars();
      head := (head - 1) % TTY_BUF_SIZE;
      assert |Chars()| == |was| - 1;
      forall i | 0 <= i < |Chars()| ensures Chars()[i] == was[i] {
        assert was[i] == buf[..][Wrap(tail + i, TTY_BUF_SIZE)] == Chars()[i];
      }
    }

    method GetCh() returns (c: int)
      requires Valid() && Chars() != []
      modifies `tail
      ensures Valid() && [c] + Chars() == old(Chars())
    {
      MaskIs(tail, head, TTY_BUF_SIZE);
      Taken(buf[..], head, tail, 1);
      ghost var was := Chars();
      c := buf[tail];
      tail := (tail + 1) % TTY_BUF_SIZE;
      assert was == was[..1] + was[1..];
    }

    method PutCh(c: int)
      requires Valid() && |Chars()| < CAPACITY
      modifies `head, buf
      ensures Valid() && Chars() == old(Chars()) + [c]
    {
      MaskIs(head, tail, TTY_BUF_SIZE);
      buf[head] := c;
      Written(old(buf[..]), buf[..], head, tail, [c]);
      head := (head + 1) % TTY_BUF_SIZE;
    }
  }

  class Terminal {
    const cfg: Config
    const readQ: Queue
    const secondary: Queue
    var stopped: bool
    var signals: seq<Signal>

    ghost predicate Valid()
      reads this, readQ, secondary
    {
      && readQ != secondary && readQ.buf != secondary.buf && readQ.Valid() && secondary.Valid()
    }

    ghost function Abs(): State
      reads this, readQ, readQ.buf, secondary, secondary.buf
      requires Valid()
    {
      State(readQ.Chars(), secondary.Chars(), secondary.data, stopped, signals)
    }

    constructor (cfg: Config)
      ensures Valid() && fresh(readQ) && fresh(readQ.buf) && fresh(secondary) && fresh(secondary.buf)
      ensures this.cfg == cfg && Abs() == State([], [], 0, false, []) && Inv(cfg, Abs())
    {
      this.cfg := cfg;
      readQ := new Queue();
      secondary := new Queue();
      stopped, signals := false, [];
    }

    /** copy_to_cooked, without the echo. */
    method CopyToCooked()
      requires Valid()
      modifies this, readQ, readQ.buf, secondary, secondary.buf
      ensures Valid() && Abs() == Cook(cfg, old(Abs()))
    {
      while !readQ.Empty() && secondary.Left() != 0
        invariant Valid() && Cook(cfg, old(Abs())) == Cook(cfg, Abs())
        decreases |readQ.Chars()|
      {
        ghost var s := Abs();
        var c := readQ.GetCh();
        CookUnfolds(cfg, s);
        assert s.raw[0] == c && readQ.Chars() == s.raw[1..];
        Round(c);
      }
    }

    method Round(c: int)
      requires Valid() && |secondary.Chars()| < CAPACITY
      modifies this, secondary, secondary.buf
      ensures Valid() && readQ.Chars() == old(readQ.Chars())
      ensures Abs() == if Dropped(cfg, c) then old(Abs()) else Edit(cfg, old(Abs()), Translate(cfg, c))
    {
      var d := c;
      if d == CR {
        if cfg.crnl {
          d := NL;
        } else if cfg.nocr {
          return;
        }
      } else if d == NL && cfg.nlcr {
        d := CR;
      }
      if cfg.uclc {
        d := ToLower(d);
      }
      EditChar(d);
    }

    method EditChar(d: int)
      requires Valid() && |secondary.Chars()| < CAPACITY
      modifies this, secondary, secondary.buf
      ensures Valid() && Abs() == Edit(cfg, old(Abs()), d)
    {
      if cfg.canon {
        if d == cfg.kill {
          KillLine();
          return;
        }
        if d == cfg.erase {
          if !secondary.Empty() && secondary.Last() != NL && secondary.Last() != cfg.eof {
            secondary.DecHead();
          }
          return;
        }
        if d == cfg.stop {
          stopped := true;
          return;
        }
        if d == cfg.start {
          stopped := false;
          return;
        }
      }
      if cfg.isig {
        if d == cfg.intr {
          signals := signals + [Interrupt];
          return;
        }
        if d == cfg.quit {
          signals := signals + [Quit];
          return;
        }
      }
      if d == NL || d == cfg.eof {
        secondary.data := secondary.data + 1;
      }
      secondary.PutCh(d);
    }

    method KillLine()
      requires Valid()
      modifies secondary`head
      ensures Valid() && Abs() == old(Abs()).(cooked := Killed(cfg, old(Abs()).cooked))
    {
      while !(secondary.Empty() || secondary.Last() == NL || secondary.Last() == cfg.eof)
        invariant Valid() && Killed(cfg, old(secondary.Chars())) == Killed(cfg, secondary.Chars())
        decreases |secondary.Chars()|
      {
        secondary.DecHead();
      }
    }

    /** The do loop of tty_read, once it need not wait; `eof` if an end-of-file was met. */
    method ReadChars(nr: nat) returns (bytes: seq<int>, eof: bool)
      requires Valid() && nr > 0 && secondary.Chars() != []
      modifies secondary
      ensures Valid() && Abs() == Read(cfg, old(Abs()), nr).0
      ensures bytes == Read(cfg, old(Abs()), nr).1 && eof == Read(cfg, old(Abs()), nr).2
    {
      ghost var want := Read(cfg, Abs(), nr);
      assert [] + want.1 == want.1;
      bytes, eof := [], false;
      var left, done := nr, false;
      while !done
        invariant Valid() && (!done ==> left > 0 && secondary.Chars() != [] && StillToRead(cfg, want, bytes, Abs(), left))
        invariant done ==> want == (Abs(), bytes, eof)
        decreases if done then 0 else 1, left
      {
        bytes, done, eof := ReadOne(want, bytes, left);
        left := left - 1;
      }
    }

    /** One round of the do loop. */
    method ReadOne(ghost want: (State, seq<int>, bool), bytes: seq<int>, left: nat) returns (b: seq<int>, done: bool, eof: bool)
      requires Valid() && left > 0 && secondary.Chars() != [] && StillToRead(cfg, want, bytes, Abs(), left)
      modifies secondary
      ensures Valid() && (done ==> want == (Abs(), b, eof))
      ensures !done ==> left > 1 && secondary.Chars() != [] && StillToRead(cfg, want, b, Abs(), left - 1)
    {
      ReadStep(cfg, want, bytes, Abs(), left);
      var c := GetOne();
      if c == cfg.eof && cfg.canon {
        return bytes, true, true;
      }
      b, done, eof := bytes + [c], left == 1 || secondary.Empty(), false;
    }

    method GetOne() returns (c: int)
      requires Valid() && secondary.Chars() != []
      modifies secondary
      ensures Valid() && c == old(Abs()).cooked[0] && Abs() == TakeOne(cfg, old(Abs()))
    {
      ghost var was := secondary.Chars();
      c := secondary.GetCh();
      assert was[0] == c && secondary.Chars() == was[1..];
      if c == cfg.eof || c == NL {
        secondary.data := secondary.data - 1;
      }
    }

    /** The test before it. */
    method WouldWait() returns (b: bool)
      requires Valid()
      ensures b <==> MustWait(cfg, Abs())
    {
      b := secondary.Empty() || (cfg.canon && secondary.data == 0 && secondary.Left() > 20);
    }
  }

  lemma CookUnfolds(cfg: Config, s: State)
    requires s.raw != [] && |s.cooked| < CAPACITY
    ensures Cook(cfg, s) == Cook(cfg, CookOne(cfg, s))
  {
  }
}
