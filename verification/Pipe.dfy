/** fs/pipe.c: a pipe is a page used as a ring; readers and writers move chunks and sleep
    when there is nothing to move. Here a pass moves its chunk at once; PipeRun has what happens
    when the copying itself sleeps. */
module Pipe {
  import opened Ring

  const PAGE_SIZE: nat := 4096

  datatype State = State(page: seq<int>, head: nat, tail: nat)

  predicate Ok(s: State) {
    |s.page| == PAGE_SIZE && s.head < PAGE_SIZE && s.tail < PAGE_SIZE
  }

  /** The bytes written and not yet read. */
  function Unread(s: State): (c: seq<int>)
    requires Ok(s)
    ensures |c| < PAGE_SIZE
  {
    Contents(s.page, s.head, s.tail)
  }

  function Min(a: nat, b: nat): nat { if a < b then a else b }

  /** How much one pass of read_pipe's loop moves. */
  function ReadChars(s: State, count: nat): nat
    requires Ok(s)
  {
    Min(Min(PAGE_SIZE - s.tail, count), |Unread(s)|)
  }

  function WriteChars(s: State, count: nat): nat
    requires Ok(s)
  {
    Min(Min(PAGE_SIZE - s.head, count), PAGE_SIZE - 1 - |Unread(s)|)
  }

  function ReadChunk(s: State, count: nat): (r: (State, seq<int>))
    requires Ok(s)
    ensures Ok(r.0) && r.1 + Unread(r.0) == Unread(s)
    ensures |r.1| <= count && (count > 0 && Unread(s) != [] ==> |r.1| > 0)
  {
    var n := ReadChars(s, count);
    Taken(s.page, s.head, s.tail, n);
    assert Unread(s) == Unread(s)[..n] + Unread(s)[n..];
    (s.(tail := Wrap(s.tail + n, PAGE_SIZE)), s.page[s.tail..s.tail + n])
  }

  /** The page with bytes copied in at head. */
  function Store(page: seq<int>, at: nat, bytes: seq<int>): (r: seq<int>)
    requires at + |bytes| <= |page|
    ensures |r| == |page|
  {
    page[..at] + bytes + page[at + |bytes|..]
  }

  /** What it accepts is a prefix of what it is offered. */
  function WriteChunk(s: State, bytes: seq<int>): (r: (State, nat))
    requires Ok(s)
    ensures Ok(r.0) && r.1 <= |bytes| && Unread(r.0) == Unread(s) + bytes[..r.1]
    ensures bytes != [] && |Unread(s)| < PAGE_SIZE - 1 ==> r.1 > 0
  {
    var n := WriteChars(s, |bytes|);
    var page := Store(s.page, s.head, bytes[..n]);
    Written(s.page, page, s.head, s.tail, bytes[..n]);
    (State(page, Wrap(s.head + n, PAGE_SIZE), s.tail), n)
  }

  // ---- every interleaving of passes that take no page fault -------------------------------

  /** A pass of some reader's loop, or of some writer's with what it has left. */
  datatype Step = Read(count: nat) | Write(bytes: seq<int>)

  /** The pipe after the steps, all that readers got, and all that writers got rid of. */
  datatype Outcome = Outcome(pipe: State, got: seq<int>, put: seq<int>)

  function Run(s: State, steps: seq<Step>): (o: Outcome)
    requires Ok(s)
    ensures Ok(o.pipe)
    decreases |steps|
  {
    if steps == [] then Outcome(s, [], [])
    else match steps[0]
      case Read(n) =>
        var (t, bytes) := ReadChunk(s, n);
        var o := Run(t, steps[1..]);
        o.(got := bytes + o.got)
      case Write(bytes) =>
        var (t, n) := WriteChunk(s, bytes);
        var o := Run(t, steps[1..]);
        o.(put := bytes[..n] + o.put)
  }

  /** First in, first out, whoever makes which pass when: what was read, then what is still in the
      page, is what was in it before, then what was written. */
  lemma {:induction false} Fifo(s: State, steps: seq<Step>)
    requires Ok(s)
    ensures var o := Run(s, steps); o.got + Unread(o.pipe) == Unread(s) + o.put
    decreases |steps|
  {
    if steps != [] {
      match steps[0]
      case Read(n) =>
        var (t, bytes) := ReadChunk(s, n);
        var o := Run(t, steps[1..]);
        Fifo(t, steps[1..]);
        Moved(bytes, o.got, Unread(o.pipe), o.got + Unread(o.pipe));
        Moved(bytes, Unread(t), o.put, Unread(t) + o.put);
      case Write(bytes) =>
        var (t, n) := WriteChunk(s, bytes);
        var o := Run(t, steps[1..]);
        Fifo(t, steps[1..]);
        Moved(Unread(s), bytes[..n], o.put, bytes[..n] + o.put);
    }
  }

  /** From an empty pipe: reads are a prefix of writes, at most 4095 bytes behind. */
  lemma ReadsArePrefix(s: State, steps: seq<Step>)
    requires Ok(s) && s.head == s.tail
    ensures var o := Run(s, steps); o.got <= o.put && |o.put| - |o.got| <= 4095
  {
    Fifo(s, steps);
    var o := Run(s, steps);
    assert o.put == o.got + Unread(o.pipe);
  }

  lemma Moved(a: seq<int>, b: seq<int>, c: seq<int>, d: seq<int>)
    requires d == b + c
    ensures a + d == (a + b) + c && |d| == |b| + |c|
  {
  }

  lemma Append(first: seq<int>, buf: seq<int>, k: nat, n: nat, was: seq<int>, now: seq<int>)
    requires k + n <= |buf| && was == first + buf[..k] && now == was + buf[k..][..n]
    ensures now == first + buf[..k + n]
  {
    assert buf[..k] + buf[k..][..n] == buf[..k + n];
  }

  // ---- the code's own form ------------------------------------------------------------

  class PipeInode {
    const page: array<int>
    var head: nat
    var tail: nat

    ghost predicate Valid()
      reads this, page
    {
      Ok(Abs())
    }

    ghost function Abs(): State
      reads this, page
    {
      State(page[..], head, tail)
    }

    constructor ()
      ensures Valid() && fresh(page) && Unread(Abs()) == []
    {
      page := new int[PAGE_SIZE];
      head, tail := 0, 0;
    }

    method Size() returns (n: nat)
      requires Valid()
      ensures n == |Unread(Abs())|
    {
      MaskIs(head, tail, PAGE_SIZE);
      n := (head - tail) % PAGE_SIZE;
    }

    /** read_pipe up to where it would sleep: `waits` then, with the pipe empty. */
    method ReadPipe(count: nat) returns (buf: seq<int>, waits: bool)
      requires Valid()
      modifies this`tail
      ensures Valid() && buf + Unread(Abs()) == old(Unread(Abs()))
      ensures |buf| == Min(count, |old(Unread(Abs()))|) && (waits <==> |buf| < count)
    {
      buf, waits := [], false;
      var left: nat := count;
      while left > 0
        invariant Valid() && |buf| + left == count && buf + Unread(Abs()) == old(Unread(Abs()))
        invariant |buf| + |Unread(Abs())| == |old(Unread(Abs()))|
      {
        var size := Size();
        if size == 0 {
          assert buf + Unread(Abs()) == buf;
          return buf, true;
        }
        ghost var was := Unread(Abs());
        var bytes := Take(left, size);
        Moved(buf, bytes, Unread(Abs()), was);
        left := left - |bytes|;
        buf := buf + bytes;
      }
    }

    method Take(count: nat, s: nat) returns (bytes: seq<int>)
      requires Valid() && s == |Unread(Abs())| > 0 && count > 0
      modifies this`tail
      ensures Valid() && bytes + Unread(Abs()) == old(Unread(Abs())) && 0 < |bytes| <= count
    {
      bytes := TakeChunk(count, s);
    }

    method TakeChunk(count: nat, s: nat) returns (bytes: seq<int>)
      requires Valid() && s == |Unread(Abs())| > 0 && count > 0
      modifies this`tail
      ensures Valid() && Abs() == ReadChunk(old(Abs()), count).0 && bytes == ReadChunk(old(Abs()), count).1
    {
      var chars: nat := PAGE_SIZE - tail;
      if chars > count {
        chars := count;
      }
      if chars > s {
        chars := s;
      }
      var size := tail;
      ghost var n, at := chars, tail;
      tail := tail + chars;
      tail := Wrap(tail, PAGE_SIZE);
      bytes := [];
      while chars > 0
        invariant chars <= n && size == at + n - chars && at + n <= PAGE_SIZE == page.Length
        invariant bytes == page[at..size]
      {
        bytes := bytes + [page[size]];
        size := size + 1;
        chars := chars - 1;
      }
    }

    /** write_pipe up to where it would sleep: `waits` then, with the pipe full. */
    method WritePipe(buf: seq<int>) returns (written: nat, waits: bool)
      requires Valid()
      modifies this`head, page
      ensures Valid() && written <= |buf| && Unread(Abs()) == old(Unread(Abs())) + buf[..written]
      ensures written == Min(|buf|, PAGE_SIZE - 1 - |old(Unread(Abs()))|) && (waits <==> written < |buf|)
    {
      written, waits := 0, false;
      while written < |buf|
        invariant Valid() && written <= |buf| && Unread(Abs()) == old(Unread(Abs())) + buf[..written]
      {
        var used := Size();
        if used == PAGE_SIZE - 1 {
          return written, true;
        }
        ghost var was := Unread(Abs());
        var n := PutChunk(buf[written..], PAGE_SIZE - 1 - used);
        Append(old(Unread(Abs())), buf, written, n, was, Unread(Abs()));
        written := written + n;
      }
    }

    method PutChunk(bytes: seq<int>, room: nat) returns (n: nat)
      requires Valid() && room == PAGE_SIZE - 1 - |Unread(Abs())| > 0 && bytes != []
      modifies this`head, page
      ensures Valid() && Abs() == WriteChunk(old(Abs()), bytes).0 && n == WriteChunk(old(Abs()), bytes).1
    {
      var chars: nat := PAGE_SIZE - head;
      if chars > |bytes| {
        chars := |bytes|;
      }
      if chars > room {
        chars := room;
      }
      n := chars;
      var size := head;
      head := head + chars;
      head := Wrap(head, PAGE_SIZE);
      CopyIn(size, bytes[..n]);
    }

    method CopyIn(at: nat, bytes: seq<int>)
      requires page.Length == PAGE_SIZE && at + |bytes| <= PAGE_SIZE
      modifies page
      ensures page[..] == Store(old(page[..]), at, bytes)
    {
      var chars, size := |bytes|, at;
      while chars > 0
        invariant 0 <= chars <= |bytes| && size == at + |bytes| - chars
        invariant page[..] == Store(old(page[..]), at, bytes[..|bytes| - chars])
      {
        page[size] := bytes[|bytes| - chars];
        size := size + 1;
        chars := chars - 1;
      }
    }
  }
}
