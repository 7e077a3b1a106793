/** What is in the buffers of fs/buffer.c: whoever holds a block reads what was last written to
    it, and it is on the disk or in its buffer, through recycling, locking, transfers and frees;
    and exactly which steps can lose a write. */
module CacheData {
  import opened CacheProtocol

  /** Why a buffer is locked: a read; a write whose request has no slot yet; a write that is
      queued, with or without bytes put into the buffer since. */
  datatype Transfer = NoTransfer | Reading | WaitingToWrite | Writing(torn: bool)

  type Content = (nat, nat) -> int

  /** The protocol's state, the bytes of each buffer, why it is locked, the disk, what was last
      written to each block, and the holders that have put bytes in and not set b_dirt since. */
  datatype Cache = Cache(s: State, mem: seq<int>, io: seq<Transfer>, disk: Content, latest: Content, owes: set<nat>)

  datatype DataStep =
    | Proto(step: Step)                    // getblk, get_hash_table, brelse
    | LockFor(b: nat, write: bool)         // ll_rw_block: lock_buffer
    | Submit(b: nat)                       // add_request of a write
    | Skip(b: nat)                         // read-ahead or write-ahead given up
    | Done(b: nat, ok: bool, bytes: int)   // the transfer and end_request
    | Put(p: nat, bytes: int)              // a holder changes its block
    | Mark(p: nat)                         // and sets b_dirt
    | Fill(p: nat, bytes: int)             // new_block: the whole block, and b_uptodate and b_dirt
    | Forget(p: nat)                       // free_block: both flags cleared

  function With(c: Content, dev: nat, block: nat, bytes: int): Content {
    (d: nat, b: nat) => if d == dev && b == block then bytes else c(d, b)
  }

  predicate Owner(s: State, p: nat, b: nat) {
    p < |s.pcs| && s.pcs[p].Hold? && s.pcs[p].bh == b
  }

  ghost predicate Owing(c: Cache, b: nat) {
    exists p: nat :: p in c.owes && Owner(c.s, p, b)
  }

  predicate Sized(c: Cache) {
    |c.mem| == |c.io| == |c.s.bufs|
  }

  /** The bookkeeping of a holder's change: the flag is owed unless it is set, and a write under
      way may have missed the bytes. */
  function Changed(c: Cache, p: nat, b: nat, bytes: int): Cache
    requires Sized(c) && b < |c.s.bufs|
  {
    c.(mem := c.mem[b := bytes], latest := With(c.latest, c.s.bufs[b].dev, c.s.bufs[b].block, bytes),
       io := if c.io[b].Writing? then c.io[b := Writing(true)] else c.io,
       owes := if c.s.bufs[b].dirty then c.owes else c.owes + {p})
  }

  function Flags(s: State, b: nat, uptodate: bool, dirty: bool, locked: bool): State
    requires b < |s.bufs|
  {
    s.(bufs := s.bufs[b := s.bufs[b].(uptodate := uptodate, dirty := dirty, locked := locked)])
  }

  /** Nobody owes b its flag any more. */
  function Paid(c: Cache, b: nat): set<nat> {
    set p | p in c.owes && !Owner(c.s, p, b)
  }

  ghost predicate DataNext(c: Cache, t: Cache, step: DataStep) {
    Sized(c) &&
    match step
    case Proto(q) =>
      && (q.Get? || q.Resume? || q.Release?) && Next(c.s, t.s, q)
      && t == c.(s := t.s, owes := if q.Release? then c.owes - {q.p} else c.owes)
    case LockFor(b, write) =>
      && b < |c.s.bufs| && !c.s.bufs[b].locked && (if write then c.s.bufs[b].dirty else !c.s.bufs[b].uptodate)
      && t == c.(s := Flags(c.s, b, c.s.bufs[b].uptodate, c.s.bufs[b].dirty, true), io := c.io[b := if write then WaitingToWrite else Reading])
    case Submit(b) =>
      && b < |c.s.bufs| && c.io[b] == WaitingToWrite && c.s.bufs[b].locked
      && t == c.(s := Flags(c.s, b, c.s.bufs[b].uptodate, false, true), io := c.io[b := Writing(false)])
    case Skip(b) =>
      && b < |c.s.bufs| && c.io[b] in {Reading, WaitingToWrite} && c.s.bufs[b].locked
      && t == c.(s := Flags(c.s, b, c.s.bufs[b].uptodate, c.s.bufs[b].dirty, false), io := c.io[b := NoTransfer])
    case Done(b, ok, bytes) =>
      && b < |c.s.bufs| && c.s.bufs[b].locked
      && var u := c.(s := Flags(c.s, b, ok, c.s.bufs[b].dirty, false), io := c.io[b := NoTransfer]);
         (match c.io[b]
          case Reading => t == u.(mem := if ok then c.mem[b := c.disk(c.s.bufs[b].dev, c.s.bufs[b].block)] else c.mem)
          case Writing(torn) =>
            && (torn || bytes == c.mem[b])
            && t == u.(disk := if ok then With(c.disk, c.s.bufs[b].dev, c.s.bufs[b].block, bytes) else c.disk)
          case _ => false)
    case Put(p, bytes) =>
      p < |c.s.pcs| && c.s.pcs[p].Hold? && c.s.pcs[p].bh < |c.s.bufs| && t == Changed(c, p, c.s.pcs[p].bh, bytes)
    case Mark(p) =>
      p < |c.s.pcs| && c.s.pcs[p].Hold? && c.s.pcs[p].bh < |c.s.bufs| &&
      var b := c.s.pcs[p].bh;
      t == c.(s := Flags(c.s, b, c.s.bufs[b].uptodate, true, c.s.bufs[b].locked), owes := Paid(c, b))
    case Fill(p, bytes) =>
      p < |c.s.pcs| && c.s.pcs[p].Hold? && c.s.pcs[p].bh < |c.s.bufs| &&
      var b := c.s.pcs[p].bh;
      && !c.s.bufs[b].locked
      && t == c.(s := Flags(c.s, b, true, true, false), owes := Paid(c, b), mem := c.mem[b := bytes],
                 latest := With(c.latest, c.s.bufs[b].dev, c.s.bufs[b].block, bytes))
    case Forget(p) =>
      p < |c.s.pcs| && c.s.pcs[p].Hold? && c.s.pcs[p].bh < |c.s.bufs| &&
      var b := c.s.pcs[p].bh; var dev, block := c.s.bufs[b].dev, c.s.bufs[b].block;
      && !c.s.bufs[b].locked
      && t == c.(s := Flags(c.s, b, false, false, false), owes := Paid(c, b), latest := With(c.latest, dev, block, c.disk(dev, block)))
  }

  // ---- what a safe step keeps --------------------------------------------------------------------

  /** What is in buffer b, and on the disk, against what was last written to its block. */
  ghost predicate BufferOk(c: Cache, b: nat)
    requires Sized(c) && b < |c.s.bufs|
  {
    var buf := c.s.bufs[b];
    var now, on := c.latest(buf.dev, buf.block), c.disk(buf.dev, buf.block);
    && (buf.uptodate ==> c.mem[b] == now) && (c.io[b].Writing? ==> buf.uptodate)
    && (!buf.uptodate ==> on == now && !buf.dirty && !Owing(c, b))
    && (buf.uptodate && !buf.dirty && !Owing(c, b) ==> if c.io[b].Writing? then !c.io[b].torn else on == now)
  }

  ghost predicate Cached(c: Cache, dev: nat, block: nat) {
    exists b: nat :: b < |c.s.bufs| && Matches(c.s.bufs[b], dev, block)
  }

  /** A block in no buffer is on the disk. */
  ghost predicate BlockOk(c: Cache, dev: nat, block: nat) {
    dev != 0 && !Cached(c, dev, block) ==> c.disk(dev, block) == c.latest(dev, block)
  }

  /** The bits of b agree with why it is locked, and owed flags are not set. */
  ghost predicate BitsOk(c: Cache, b: nat)
    requires Sized(c) && b < |c.s.bufs|
  {
    var buf := c.s.bufs[b];
    && (buf.locked <==> c.io[b] != NoTransfer) && (c.io[b].Reading? ==> !buf.uptodate)
    && (c.io[b].WaitingToWrite? ==> buf.dirty) && (Owing(c, b) ==> !buf.dirty)
  }

  ghost predicate OwesOk(c: Cache, p: nat) {
    p in c.owes ==> p < |c.s.pcs| && c.s.pcs[p].Hold?
  }

  ghost predicate Shape(c: Cache) {
    && Inv(c.s) && Sized(c)
    && (forall b: nat {:trigger BitsOk(c, b)} | b < |c.s.bufs| :: BitsOk(c, b))
    && forall p: nat {:trigger OwesOk(c, p)} :: OwesOk(c, p)
  }

  /** Every block is as last written, in its buffer or on the disk. */
  ghost predicate Coherent(c: Cache) {
    && Shape(c)
    && (forall b: nat {:trigger BufferOk(c, b)} | b < |c.s.bufs| && c.s.bufs[b].dev != 0 :: BufferOk(c, b))
    && forall dev: nat, block: nat {:trigger BlockOk(c, dev, block)} :: BlockOk(c, dev, block)
  }

  /** The steps that can lose a write: changing a buffer that was not read, or giving up the
      last flag owed, or a transfer that fails, while the disk has something else. */
  ghost predicate Safe(c: Cache, step: DataStep)
    requires Sized(c)
  {
    match step
    case Put(p, _) => p < |c.s.pcs| && c.s.pcs[p].Hold? && c.s.pcs[p].bh < |c.s.bufs| ==> c.s.bufs[c.s.pcs[p].bh].uptodate
    case Mark(p) => p < |c.s.pcs| && c.s.pcs[p].Hold? && c.s.pcs[p].bh < |c.s.bufs| ==> c.s.bufs[c.s.pcs[p].bh].uptodate
    case Proto(q) => q.Release? && q.p in c.owes && q.p < |c.s.pcs| && c.s.pcs[q.p].Hold? && c.s.pcs[q.p].bh < |c.s.bufs| ==>
      Owing(c.(owes := c.owes - {q.p}), c.s.pcs[q.p].bh) || OnItsWay(c, c.s.pcs[q.p].bh)
    case Done(b, ok, _) => b < |c.s.bufs| && c.io[b].Writing? && !ok && c.s.bufs[b].dev != 0 ==>
      !c.s.bufs[b].dirty && !Owing(c, b) && c.disk(c.s.bufs[b].dev, c.s.bufs[b].block) == c.latest(c.s.bufs[b].dev, c.s.bufs[b].block)
    case _ => true
  }

  /** The bytes in b are on the disk, or in a transfer that began after them. */
  predicate OnItsWay(c: Cache, b: nat)
    requires Sized(c) && b < |c.s.bufs|
  {
    if c.io[b].Writing? then !c.io[b].torn else c.disk(c.s.bufs[b].dev, c.s.bufs[b].block) == c.latest(c.s.bufs[b].dev, c.s.bufs[b].block)
  }

  /** t differs from c in buffer b, its bytes, its transfer and its block only. */
  ghost predicate OnlyAt(c: Cache, t: Cache, b: nat)
    requires Sized(c) && b < |c.s.bufs|
  {
    var dev, block := c.s.bufs[b].dev, c.s.bufs[b].block;
    && Sized(t) && |t.s.bufs| == |c.s.bufs| && Matches(t.s.bufs[b], dev, block)
    && t.s.bufs == c.s.bufs[b := t.s.bufs[b]] && t.mem == c.mem[b := t.mem[b]] && t.io == c.io[b := t.io[b]]
    && (forall d: nat, k: nat | d != dev || k != block :: t.disk(d, k) == c.disk(d, k) && t.latest(d, k) == c.latest(d, k))
    && forall a: nat | a != b :: Owing(t, a) <==> Owing(c, a)
  }

  lemma OneBuffer(c: Cache, t: Cache, b: nat)
    requires Coherent(c) && b < |c.s.bufs| && OnlyAt(c, t, b) && Shape(t)
    requires c.s.bufs[b].dev == 0 ==> forall d: nat, k: nat | d != 0 :: t.disk(d, k) == c.disk(d, k) && t.latest(d, k) == c.latest(d, k)
    ensures Coherent(t) <==> (c.s.bufs[b].dev != 0 ==> BufferOk(t, b))
  {
    forall a: nat | a < |t.s.bufs| && t.s.bufs[a].dev != 0 && a != b ensures BufferOk(t, a) {
      assert BufferOk(c, a);
    }
    forall dev: nat, block: nat ensures BlockOk(t, dev, block) {
      assert BlockOk(c, dev, block);
      SameCached(c, t, dev, block);
      if dev != 0 && !Cached(c, dev, block) {
        assert !Matches(c.s.bufs[b], dev, block);
      }
    }
  }

  lemma SameCached(c: Cache, t: Cache, dev: nat, block: nat)
    requires |t.s.bufs| == |c.s.bufs| && forall b: nat | b < |c.s.bufs| :: Matches(t.s.bufs[b], c.s.bufs[b].dev, c.s.bufs[b].block)
    ensures Cached(t, dev, block) <==> Cached(c, dev, block)
  {
    if Cached(c, dev, block) {
      var b: nat :| b < |c.s.bufs| && Matches(c.s.bufs[b], dev, block);
      assert Matches(t.s.bufs[b], dev, block);
    }
    if Cached(t, dev, block) {
      var b: nat :| b < |t.s.bufs| && Matches(t.s.bufs[b], dev, block);
      assert Matches(c.s.bufs[b], dev, block);
    }
  }

  // ---- steps on one buffer's flags ------------------------------------------------------------

  /** Flags and bytes of one buffer change, and flags are owed by others or the same. */
  lemma FlagsShape(c: Cache, t: Cache, b: nat)
    requires Shape(c) && b < |c.s.bufs| && Sized(t) && |t.s.bufs| == |c.s.bufs| && t.s == c.s.(bufs := c.s.bufs[b := t.s.bufs[b]])
    requires Matches(t.s.bufs[b], c.s.bufs[b].dev, c.s.bufs[b].block) && t.s.bufs[b].count == c.s.bufs[b].count
    requires t.io == c.io[b := t.io[b]] && BitsOk(t, b)
    requires forall p: nat | p in t.owes :: p in c.owes || Owner(c.s, p, b)
    requires forall p: nat | p in c.owes && !Owner(c.s, p, b) :: p in t.owes
    ensures Shape(t) && forall a: nat | a != b :: Owing(t, a) <==> Owing(c, a)
  {
    FlagsKeep(c.s, t.s, b);
    forall a: nat | a != b ensures Owing(t, a) <==> Owing(c, a) {
      OwingSame(c, t, b, a);
    }
    forall a: nat | a < |t.s.bufs| ensures BitsOk(t, a) {
      assert BitsOk(c, a);
    }
    forall p: nat ensures OwesOk(t, p) {
      assert OwesOk(c, p);
    }
  }

  lemma OwingSame(c: Cache, t: Cache, b: nat, a: nat)
    requires a != b && t.s.pcs == c.s.pcs
    requires forall p: nat | p in t.owes :: p in c.owes || Owner(c.s, p, b)
    requires forall p: nat | p in c.owes && !Owner(c.s, p, b) :: p in t.owes
    ensures Owing(t, a) <==> Owing(c, a)
  {
    if Owing(c, a) {
      var p: nat :| p in c.owes && Owner(c.s, p, a);
      assert p in t.owes && Owner(t.s, p, a);
    }
    if Owing(t, a) {
      var p: nat :| p in t.owes && Owner(t.s, p, a);
      assert p in c.owes && Owner(c.s, p, a);
    }
  }

  lemma OwingEq(c: Cache, t: Cache, b: nat)
    requires t.s.pcs == c.s.pcs && t.owes == c.owes
    ensures Owing(t, b) <==> Owing(c, b)
  {
  }

  lemma LockSafe(c: Cache, t: Cache, step: DataStep)
    requires Coherent(c) && DataNext(c, t, step) && (step.LockFor? || step.Submit? || step.Skip?)
    ensures Coherent(t)
  {
    var b := step.b;
    assert BitsOk(c, b) && (c.s.bufs[b].dev != 0 ==> BufferOk(c, b));
    OwingEq(c, t, b);
    FlagsShape(c, t, b);
    OneBuffer(c, t, b);
  }

  lemma DoneIff(c: Cache, t: Cache, b: nat, ok: bool, bytes: int)
    requires Coherent(c) && DataNext(c, t, Done(b, ok, bytes))
    ensures Coherent(t) <==> Safe(c, Done(b, ok, bytes))
  {
    assert BitsOk(c, b) && (c.s.bufs[b].dev != 0 ==> BufferOk(c, b));
    OwingEq(c, t, b);
    FlagsShape(c, t, b);
    OneBuffer(c, t, b);
  }

  lemma PutIff(c: Cache, t: Cache, p: nat, bytes: int)
    requires Coherent(c) && DataNext(c, t, Put(p, bytes))
    ensures Coherent(t) <==> Safe(c, Put(p, bytes))
  {
    var b := c.s.pcs[p].bh;
    assert BitsOk(c, b) && (c.s.bufs[b].dev != 0 ==> BufferOk(c, b));
    assert Owner(t.s, p, b) && (!c.s.bufs[b].dirty ==> p in t.owes && Owing(t, b));
    if c.s.bufs[b].dirty { OwingEq(c, t, b); }
    FlagsShape(c, t, b);
    OneBuffer(c, t, b);
  }

  lemma PaidOff(c: Cache, t: Cache, b: nat)
    requires t.s.pcs == c.s.pcs && t.owes == Paid(c, b)
    ensures !Owing(t, b)
  {
  }

  lemma MarkIff(c: Cache, t: Cache, p: nat)
    requires Coherent(c) && DataNext(c, t, Mark(p))
    ensures Coherent(t) <==> Safe(c, Mark(p))
  {
    var b := c.s.pcs[p].bh;
    assert BitsOk(c, b) && (c.s.bufs[b].dev != 0 ==> BufferOk(c, b));
    PaidOff(c, t, b);
    FlagsShape(c, t, b);
    OneBuffer(c, t, b);
  }

  lemma WholeSafe(c: Cache, t: Cache, step: DataStep)
    requires Coherent(c) && DataNext(c, t, step) && (step.Fill? || step.Forget?)
    ensures Coherent(t)
  {
    var b := c.s.pcs[step.p].bh;
    assert BitsOk(c, b) && (c.s.bufs[b].dev != 0 ==> BufferOk(c, b));
    PaidOff(c, t, b);
    FlagsShape(c, t, b);
    OneBuffer(c, t, b);
  }

  // ---- steps of the protocol --------------------------------------------------------------------

  /** A buffer that is unused, unlocked and clean is given to a block that no buffer has. */
  ghost predicate Recycled(s: State, t: State, b: nat) {
    && b < |s.bufs| == |t.bufs| && t.bufs == s.bufs[b := t.bufs[b]]
    && s.bufs[b].count == 0 && !s.bufs[b].locked && !s.bufs[b].dirty
    && t.bufs[b] == Buf(t.bufs[b].dev, t.bufs[b].block, false, false, 1, false)
    && forall a: nat | a < |s.bufs| :: !Matches(s.bufs[a], t.bufs[b].dev, t.bufs[b].block)
  }

  /** Only use counts change. */
  predicate OnlyCounts(s: State, t: State) {
    |t.bufs| == |s.bufs| && forall a: nat {:trigger t.bufs[a]} | a < |s.bufs| :: t.bufs[a] == s.bufs[a].(count := t.bufs[a].count)
  }

  lemma MovedIs(s: State, t: State, p: nat, dev: nat, block: nat, o: Outcome, choice: int)
    requires p < |s.pcs| && Moved(s, t, p, dev, block, o, choice)
    requires o == Again || exists bh: nat :: bh < |s.bufs| && o == Check(s.bufs, dev, block, bh)
    ensures OnlyCounts(s, t) || exists b: nat :: Recycled(s, t, b)
    ensures |t.pcs| == |s.pcs| && forall q: nat | q < |s.pcs| && q != p :: t.pcs[q] == s.pcs[q]
  {
    assert forall i | 0 <= i < |s.bufs| :: s.bufs[i] in s.bufs;
    if !OnlyCounts(s, t) {
      assert t.pcs[p].Hold?;
      assert Recycled(s, t, t.pcs[p].bh);
    }
  }

  lemma GetIs(s: State, t: State, q: Step)
    requires Inv(s) && Next(s, t, q) && (q.Get? || q.Resume?)
    ensures OnlyCounts(s, t) || exists b: nat :: Recycled(s, t, b)
    ensures q.p < |s.pcs| == |t.pcs| && !s.pcs[q.p].Hold? && forall r: nat | r < |s.pcs| && r != q.p :: t.pcs[r] == s.pcs[r]
  {
    match q
    case Get(p, dev, block, choice) => MovedIs(s, t, p, dev, block, Again, choice);
    case Resume(p, choice) =>
      match s.pcs[p] {
        case FreeWait(dev, block) => MovedIs(s, t, p, dev, block, Again, choice);
        case Chosen(dev, block, bh) => MovedIs(s, t, p, dev, block, Check(s.bufs, dev, block, bh), choice);
        case _ =>
      }
    case _ =>
  }

  /** Activities that owe nothing may come and go. */
  lemma OthersOwe(c: Cache, t: Cache, p: nat, b: nat)
    requires t.owes == c.owes && |t.s.pcs| == |c.s.pcs| && p !in c.owes
    requires forall q: nat | q < |c.s.pcs| && q != p :: t.s.pcs[q] == c.s.pcs[q]
    ensures Owing(t, b) <==> Owing(c, b)
  {
    if Owing(c, b) {
      var q: nat :| q in c.owes && Owner(c.s, q, b);
      assert q in t.owes && Owner(t.s, q, b);
    }
    if Owing(t, b) {
      var q: nat :| q in t.owes && Owner(t.s, q, b);
      assert q in c.owes && Owner(c.s, q, b);
    }
  }

  lemma CountsSafe(c: Cache, t: Cache)
    requires Coherent(c) && t == c.(s := t.s, owes := t.owes) && OnlyCounts(c.s, t.s) && Inv(t.s)
    requires forall b: nat :: Owing(t, b) <==> Owing(c, b)
    requires forall p: nat {:trigger OwesOk(t, p)} :: OwesOk(t, p)
    ensures Coherent(t)
  {
    forall b: nat | b < |t.s.bufs| ensures BitsOk(t, b) && (t.s.bufs[b].dev != 0 ==> BufferOk(t, b)) {
      assert BitsOk(c, b) && (c.s.bufs[b].dev != 0 ==> BufferOk(c, b));
    }
    forall dev: nat, block: nat ensures BlockOk(t, dev, block) {
      assert BlockOk(c, dev, block);
      SameCached(c, t, dev, block);
    }
  }

  lemma UnusedOwesNothing(c: Cache, b: nat)
    requires Shape(c) && b < |c.s.bufs| && c.s.bufs[b].count == 0
    ensures !Owing(c, b)
  {
    assert |Holders(c.s.pcs, b)| == 0;
    forall p: nat | Owner(c.s, p, b) ensures p in Holders(c.s.pcs, b) {
    }
  }

  /** Recycling loses nothing: the block that leaves was clean, so it is on the disk. */
  lemma RecycleSafe(c: Cache, t: Cache, b: nat)
    requires Coherent(c) && t == c.(s := t.s) && Recycled(c.s, t.s, b) && Inv(t.s)
    requires forall a: nat :: Owing(t, a) <==> Owing(c, a)
    requires forall p: nat {:trigger OwesOk(t, p)} :: OwesOk(t, p)
    ensures Coherent(t)
  {
    UnusedOwesNothing(c, b);
    assert BitsOk(c, b) && (c.s.bufs[b].dev != 0 ==> BufferOk(c, b));
    assert BlockOk(c, t.s.bufs[b].dev, t.s.bufs[b].block);
    forall a: nat | a < |t.s.bufs| ensures BitsOk(t, a) && (t.s.bufs[a].dev != 0 ==> BufferOk(t, a)) {
      assert BitsOk(c, a) && (c.s.bufs[a].dev != 0 ==> BufferOk(c, a));
    }
    forall dev: nat, block: nat ensures BlockOk(t, dev, block) {
      assert BlockOk(c, dev, block);
      StillCached(c, t, b, dev, block);
    }
  }

  lemma StillCached(c: Cache, t: Cache, b: nat, dev: nat, block: nat)
    requires Recycled(c.s, t.s, b)
    ensures Cached(c, dev, block) ==> Cached(t, dev, block) || Matches(c.s.bufs[b], dev, block)
  {
    if Cached(c, dev, block) {
      var a: nat :| a < |c.s.bufs| && Matches(c.s.bufs[a], dev, block);
      assert a == b || Matches(t.s.bufs[a], dev, block);
    }
  }

  lemma GetSafe(c: Cache, t: Cache, q: Step)
    requires Coherent(c) && DataNext(c, t, Proto(q)) && (q.Get? || q.Resume?)
    ensures Coherent(t)
  {
    NextKeeps(c.s, t.s, q);
    GetIs(c.s, t.s, q);
    assert OwesOk(c, q.p);
    forall b: nat ensures Owing(t, b) <==> Owing(c, b) {
      OthersOwe(c, t, q.p, b);
    }
    forall p: nat ensures OwesOk(t, p) {
      assert OwesOk(c, p);
    }
    if OnlyCounts(c.s, t.s) {
      CountsSafe(c, t);
    } else {
      var b: nat :| Recycled(c.s, t.s, b);
      RecycleSafe(c, t, b);
    }
  }

  lemma ReleaseOwes(c: Cache, t: Cache, p: nat, a: nat)
    requires Coherent(c) && DataNext(c, t, Proto(Release(p)))
    ensures Owing(t, a) <==> Owing(c.(owes := c.owes - {p}), a)
    ensures !Owner(c.s, p, a) || p !in c.owes ==> (Owing(t, a) <==> Owing(c, a))
  {
    var u := c.(owes := c.owes - {p});
    if Owing(u, a) {
      var q: nat :| q in u.owes && Owner(u.s, q, a);
      assert q in t.owes && Owner(t.s, q, a) && q in c.owes;
    }
    if Owing(t, a) {
      var q: nat :| q in t.owes && Owner(t.s, q, a);
      assert q in u.owes && Owner(u.s, q, a) && Owner(c.s, q, a) && q in c.owes;
    }
    if Owing(c, a) && (!Owner(c.s, p, a) || p !in c.owes) {
      var q: nat :| q in c.owes && Owner(c.s, q, a);
      assert q in t.owes && Owner(t.s, q, a);
    }
  }

  lemma ReleaseIff(c: Cache, t: Cache, p: nat)
    requires Coherent(c) && DataNext(c, t, Proto(Release(p)))
    ensures Coherent(t) <==> Safe(c, Proto(Release(p)))
  {
    var b := c.s.pcs[p].bh;
    NextKeeps(c.s, t.s, Release(p));
    forall a: nat ensures !Owner(c.s, p, a) || p !in c.owes ==> (Owing(t, a) <==> Owing(c, a)) {
      ReleaseOwes(c, t, p, a);
    }
    ReleaseOwes(c, t, p, b);
    assert Owner(c.s, p, b) && BitsOk(c, b) && BufferOk(c, b);
    forall q: nat ensures OwesOk(t, q) {
      assert OwesOk(c, q);
    }
    forall a: nat | a < |t.s.bufs| ensures BitsOk(t, a) {
      assert BitsOk(c, a);
      assert Owing(t, a) ==> Owing(c, a) by { ReleaseOwes(c, t, p, a); ReleasedOwing(c, p, a); }
    }
    OneBuffer(c, t, b);
    if p in c.owes {
      assert Owing(c, b);
    }
  }

  lemma ReleasedOwing(c: Cache, p: nat, a: nat)
    ensures Owing(c.(owes := c.owes - {p}), a) ==> Owing(c, a)
  {
    if Owing(c.(owes := c.owes - {p}), a) {
      var q: nat :| q in c.owes - {p} && Owner(c.s, q, a);
      assert q in c.owes;
    }
  }

  // ---- every run ------------------------------------------------------------------------------------

  /** A step keeps every block as last written if and only if it is safe. */
  lemma CoherentIff(c: Cache, t: Cache, step: DataStep)
    requires Coherent(c) && DataNext(c, t, step)
    ensures Coherent(t) <==> Safe(c, step)
  {
    match step
    case Proto(q) => if q.Release? { ReleaseIff(c, t, q.p); } else { GetSafe(c, t, q); }
    case Done(b, ok, bytes) => DoneIff(c, t, b, ok, bytes);
    case Put(p, bytes) => PutIff(c, t, p, bytes);
    case Mark(p) => MarkIff(c, t, p);
    case Fill(p, _) => WholeSafe(c, t, step);
    case Forget(p) => WholeSafe(c, t, step);
    case _ => LockSafe(c, t, step);
  }

  /** Who holds a buffer that is up to date reads what was last written to its block. */
  lemma ReadsLatest(c: Cache, p: nat)
    requires Coherent(c) && p < |c.s.pcs| && c.s.pcs[p].Hold?
    ensures var pc := c.s.pcs[p];
      pc.bh < |c.s.bufs| == |c.mem| && (c.s.bufs[pc.bh].uptodate ==> c.mem[pc.bh] == c.latest(pc.dev, pc.block))
  {
    assert c.s.bufs[c.s.pcs[p].bh].dev != 0 ==> BufferOk(c, c.s.pcs[p].bh);
  }

  /** Every block is on the disk, or in an up-to-date buffer, as last written. */
  lemma NothingLost(c: Cache, dev: nat, block: nat)
    requires Coherent(c) && dev != 0
    ensures c.disk(dev, block) == c.latest(dev, block) ||
      exists b: nat :: b < |c.s.bufs| == |c.mem| && Matches(c.s.bufs[b], dev, block) && c.s.bufs[b].uptodate && c.mem[b] == c.latest(dev, block)
  {
    assert BlockOk(c, dev, block);
    if Cached(c, dev, block) {
      var b: nat :| b < |c.s.bufs| && Matches(c.s.bufs[b], dev, block);
      assert BufferOk(c, b);
    }
  }

  ghost predicate IsDataRun(states: seq<Cache>, steps: seq<DataStep>) {
    |states| == |steps| + 1 && forall k | 0 <= k < |steps| :: DataNext(states[k], states[k + 1], steps[k])
  }

  /** Over every run of safe steps every block stays as last written. */
  lemma {:induction false} RunCoherent(states: seq<Cache>, steps: seq<DataStep>, k: nat)
    requires IsDataRun(states, steps) && Coherent(states[0]) && k < |states|
    requires forall i | 0 <= i < |steps| :: Sized(states[i]) && Safe(states[i], steps[i])
    ensures Coherent(states[k])
    decreases k
  {
    if k > 0 {
      RunCoherent(states, steps, k - 1);
      assert DataNext(states[k - 1], states[k], steps[k - 1]);
      CoherentIff(states[k - 1], states[k], steps[k - 1]);
    }
  }

  /** At boot nothing is cached and nothing was written but what is on the disk. */
  lemma BootCoherent(c: Cache)
    requires Init(c.s) && Sized(c) && c.owes == {} && c.latest == c.disk
    requires forall b: nat | b < |c.s.bufs| :: c.io[b] == NoTransfer && !c.s.bufs[b].locked
    ensures Coherent(c)
  {
    forall b ensures Holders(c.s.pcs, b) == {} {
    }
    assert forall b: nat :: !Owing(c, b);
  }

  // ---- how writes are lost ----------------------------------------------------------------------------

  /** One buffer, held by two activities, its block read. */
  ghost function Small(uptodate: bool): Cache {
    Cache(State([Buf(1, 1, uptodate, false, 2, false)], [Hold(1, 1, 0), Hold(1, 1, 0)]), [0], [NoTransfer], (d: nat, b: nat) => 0, (d: nat, b: nat) => 0, {})
  }

  lemma SmallCoherent(uptodate: bool)
    ensures Coherent(Small(uptodate))
  {
    var c := Small(uptodate);
    assert Holders(c.s.pcs, 0) == {0, 1};
    assert forall b: nat :: !Owing(c, b);
  }

  lemma FlagThenSync(c0: Cache) returns (c1: Cache, c2: Cache, c3: Cache, c4: Cache)
    requires c0 == Small(true)
    ensures DataNext(c0, c1, Mark(0)) && DataNext(c1, c2, LockFor(0, true)) && DataNext(c2, c3, Submit(0)) && DataNext(c3, c4, Done(0, true, 0))
    ensures c4 == c0.(disk := With(c0.disk, 1, 1, 0), owes := c4.owes) && c4.owes == {}
  {
    c1 := c0.(s := Flags(c0.s, 0, true, true, false), owes := Paid(c0, 0));
    c2 := c1.(s := Flags(c1.s, 0, true, true, true), io := [WaitingToWrite]);
    c3 := c2.(s := Flags(c2.s, 0, true, false, true), io := [Writing(false)]);
    c4 := c3.(s := Flags(c3.s, 0, true, false, false), io := [NoTransfer], disk := With(c3.disk, 1, 1, 0));
    assert c4.s.bufs == c0.s.bufs;
  }

  /** file_write sets b_dirt and then copies from the caller, which can sleep: sync comes in
      between, and the bytes are never written. */
  lemma FlagBeforeBytes() returns (states: seq<Cache>, steps: seq<DataStep>)
    ensures IsDataRun(states, steps) && |states| > 0 && states[0] == Small(true) && Coherent(states[0])
    ensures steps == [Mark(0), LockFor(0, true), Submit(0), Done(0, true, 0), Put(0, 7), Proto(Release(0))]
    ensures var t := states[|states| - 1]; |t.s.bufs| == 1 && t.latest(1, 1) == 7 && t.disk(1, 1) == 0 && !t.s.bufs[0].dirty && t.owes == {} && !Coherent(t)
  {
    var c0 := Small(true);
    SmallCoherent(true);
    var c1, c2, c3, c4 := FlagThenSync(c0);
    var c5 := Changed(c4, 0, 0, 7);
    var c6 := c5.(s := State(Counted(c5.s.bufs, 0, -1), c5.s.pcs[0 := Idle]), owes := c5.owes - {0});
    states := [c0, c1, c2, c3, c4, c5, c6];
    steps := [Mark(0), LockFor(0, true), Submit(0), Done(0, true, 0), Put(0, 7), Proto(Release(0))];
    assert DataNext(c4, c5, steps[4]) && DataNext(c5, c6, steps[5]);
    assert c6.owes == {} && !Owing(c6, 0) && !BufferOk(c6, 0);
  }

  /** block_write fills a whole buffer without setting b_uptodate: a reader's bread reads the
      disk over it. */
  lemma NotUptodate() returns (states: seq<Cache>, steps: seq<DataStep>)
    ensures IsDataRun(states, steps) && |states| > 0 && states[0] == Small(false) && Coherent(states[0])
    ensures steps == [Put(0, 7), Mark(0), LockFor(0, false), Done(0, true, 0)]
    ensures var t := states[|states| - 1]; |t.s.bufs| == 1 && |t.s.pcs| == 2 && t.latest(1, 1) == 7 && t.s.pcs[1] == Hold(1, 1, 0) && t.s.bufs[0].uptodate && t.mem == [0]
  {
    var c0 := Small(false);
    SmallCoherent(false);
    var c1 := Changed(c0, 0, 0, 7);
    var c2 := c1.(s := Flags(c1.s, 0, false, true, false), owes := Paid(c1, 0));
    var c3 := c2.(s := Flags(c2.s, 0, false, true, true), io := [Reading]);
    var c4 := c3.(s := Flags(c3.s, 0, true, true, false), io := [NoTransfer], mem := [0]);
    states := [c0, c1, c2, c3, c4];
    steps := [Put(0, 7), Mark(0), LockFor(0, false), Done(0, true, 0)];
    assert DataNext(c0, c1, steps[0]) && DataNext(c1, c2, steps[1]) && DataNext(c2, c3, steps[2]) && DataNext(c3, c4, steps[3]);
  }
}
