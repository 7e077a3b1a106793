/** The disk elevator of ll_rw_blk.c and blk.h on queues as sequences, head first: the
    shape of the queue and why no request waits forever. */
module Elevator {
  import opened Runs

  const READ: Command := 0
  const WRITE: Command := 1

  type Device = d: nat | d < 0x1_0000
  type Sector = s: nat | s < 0x1_0000_0000
  type Command = c: nat | c < 2

  datatype Req = Req(cmd: Command, dev: Device, sector: Sector, bh: nat)

  /** IN_ORDER. */
  predicate InOrder(a: Req, b: Req) {
    a.cmd < b.cmd || (a.cmd == b.cmd && (a.dev < b.dev || (a.dev == b.dev && a.sector < b.sector)))
  }

  const MAX_KEY: nat := 0x2_0000_0000_0000

  /** The number IN_ORDER compares. */
  function Key(r: Req): (k: nat)
    ensures k < MAX_KEY
  {
    (r.cmd * 0x1_0000 + r.dev) * 0x1_0000_0000 + r.sector
  }

  lemma InOrderIsLess(a: Req, b: Req)
    ensures InOrder(a, b) <==> Key(a) < Key(b)
    ensures Key(a) == Key(b) <==> a.cmd == b.cmd && a.dev == b.dev && a.sector == b.sector
  {
  }

  ghost function Keys(q: seq<Req>): (k: seq<int>)
    ensures |k| == |q| && forall i | 0 <= i < |q| :: k[i] == Key(q[i])
  {
    seq(|q|, i requires 0 <= i < |q| => Key(q[i]))
  }

  /** add_request: the queue position after which r goes, searching from i. */
  function Place(q: seq<Req>, r: Req, i: nat): (p: nat)
    requires i < |q|
    ensures i <= p < |q|
    decreases |q| - i
  {
    if i + 1 == |q| then i
    else if (InOrder(q[i], r) || !InOrder(q[i], q[i + 1])) && InOrder(r, q[i + 1]) then i
    else Place(q, r, i + 1)
  }

  /** add_request. */
  function Add(q: seq<Req>, r: Req): (t: seq<Req>)
    ensures |t| == |q| + 1
  {
    if q == [] then [r] else var p := Place(q, r, 0); q[..p + 1] + [r] + q[p + 1..]
  }

  lemma {:induction false} PlaceFirstFit(q: seq<Req>, r: Req, i: nat)
    requires i < |q| && forall j | 0 <= j < i :: !Fits(Keys(q), Key(r), j)
    ensures FirstFit(Keys(q), Key(r), Place(q, r, i))
    decreases |q| - i
  {
    if i + 1 < |q| {
      InOrderIsLess(q[i], r);
      InOrderIsLess(q[i], q[i + 1]);
      InOrderIsLess(r, q[i + 1]);
      if Place(q, r, i) != i {
        PlaceFirstFit(q, r, i + 1);
      }
    }
  }

  lemma AddIsInsert(q: seq<Req>, r: Req)
    requires q != []
    ensures IsInsert(Keys(q), Place(q, r, 0), Key(r), Keys(Add(q, r)))
  {
    var p, t := Place(q, r, 0), Add(q, r);
    forall i | 0 <= i < |t| ensures t[i] == if i <= p then q[i] else if i == p + 1 then r else q[i - 1] {
    }
  }

  /** A queue with distinct keys in at most two ascending runs. */
  ghost predicate Shape(q: seq<Req>) {
    Distinct(Keys(q)) && TwoRuns(Keys(q))
  }

  /** add_request keeps the queue two ascending runs, puts the new request in exactly once
      without disturbing the order of the others, and never in front of the head. */
  lemma AddKeepsShape(q: seq<Req>, r: Req)
    requires Shape(q) && Key(r) !in Keys(q)
    ensures Shape(Add(q, r))
    ensures multiset(Add(q, r)) == multiset(q) + multiset{r}
    ensures exists p :: 0 <= p <= |q| && (p == 0 ==> q == []) && Add(q, r) == q[..p] + [r] + q[p..]
  {
    if q == [] {
      assert Add(q, r) == q[..0] + [r] + q[0..];
      return;
    }
    var p := Place(q, r, 0);
    PlaceFirstFit(q, r, 0);
    AddIsInsert(q, r);
    InsertDistinct(Keys(q), p, Key(r), Keys(Add(q, r)));
    InsertTwoRuns(Keys(q), p, Key(r), Keys(Add(q, r)));
    assert q == q[..p + 1] + q[p + 1..];
    assert multiset(q) == multiset(q[..p + 1]) + multiset(q[p + 1..]);
    assert Add(q, r) == q[..p + 1] + [r] + q[p + 1..];
  }

  lemma CompleteKeepsShape(q: seq<Req>)
    requires Shape(q) && q != []
    ensures Shape(q[1..])
  {
    var k, t := Keys(q), Keys(q[1..]);
    assert forall i | 0 <= i < |t| :: t[i] == k[i + 1];
    forall i, j | Break(t, i) && Break(t, j) ensures i == j {
      assert Break(k, i + 1) && Break(k, j + 1);
    }
  }

  // ---- no starvation ----------------------------------------------------------------

  /** How far the request at position i is from being served: in the head's run, its key's
      distance from the head; behind the wrap, MAX_KEY more than the rest of that run. */
  ghost function Wait(q: seq<Req>, i: nat): (d: nat)
    requires i < |q|
    ensures d < 2 * MAX_KEY
  {
    DistanceBounds(Keys(q), i, MAX_KEY);
    Distance(Keys(q), i, MAX_KEY)
  }

  /** A completion brings every waiting request strictly closer. */
  lemma CompletionCloser(q: seq<Req>, i: nat)
    requires Shape(q) && 0 < i < |q|
    ensures Wait(q[1..], i - 1) < Wait(q, i)
  {
    RemovalCloser(Keys(q), i, MAX_KEY);
    assert Keys(q[1..]) == Keys(q)[1..];
  }

  /** Where the request at position i is after r was added. */
  function Shifted(q: seq<Req>, r: Req, i: nat): (j: nat)
    requires i < |q|
    ensures j <= |q| && Add(q, r)[j] == q[i]
  {
    if i <= Place(q, r, 0) then i else i + 1
  }

  /** An insertion takes no request further away. */
  lemma InsertionNoFurther(q: seq<Req>, r: Req, i: nat)
    requires Shape(q) && Key(r) !in Keys(q) && i < |q|
    ensures Wait(Add(q, r), Shifted(q, r, i)) == Wait(q, i)
  {
    PlaceFirstFit(q, r, 0);
    AddIsInsert(q, r);
    InsertionSameDistance(Keys(q), Place(q, r, 0), Key(r), Keys(Add(q, r)), i, MAX_KEY);
  }

  /** The hard disk driver moves the head's sector on by one half-way through. Queued
      sectors being even, that does not change where a new request goes. */
  lemma TransferHarmless(q: seq<Req>, r: Req, head: Req)
    requires q != [] && head == q[0].(sector := head.sector) && head.sector == q[0].sector + 1
    requires r.sector % 2 == 0 && forall i | 0 <= i < |q| :: q[i].sector % 2 == 0
    ensures Add(q[0 := head], r) == Add(q, r)[0 := head]
  {
    if |q| > 1 {
      SamePlace(q, q[0 := head], r, 1);
      assert InOrder(head, r) == InOrder(q[0], r) && InOrder(head, q[1]) == InOrder(q[0], q[1]);
    }
    assert Place(q[0 := head], r, 0) == Place(q, r, 0);
  }

  lemma {:induction false} SamePlace(q: seq<Req>, t: seq<Req>, r: Req, i: nat)
    requires |q| == |t| && 1 <= i < |q| && q[1..] == t[1..]
    ensures Place(t, r, i) == Place(q, r, i)
    decreases |q| - i
  {
    assert forall j | 1 <= j < |q| :: q[j] == q[1..][j - 1] && t[j] == t[1..][j - 1];
    if i + 1 < |q| {
      SamePlace(q, t, r, i + 1);
    }
  }

  // ---- every run ----------------------------------------------------------------------

  /** The block a buffer caches. */
  datatype Identity = Identity(dev: Device, block: nat)

  /** A device queue, whether its head is half-way through its two sectors, the buffers
      locked but not on this queue, and what each buffer caches at the moment. */
  datatype System = System(q: seq<Req>, half: bool, claimed: set<nat>, ids: map<nat, Identity>)

  /** lock_buffer; make_request with a slot in hand; the driver's interrupt after the first
      sector; end_request; the lock given up without a request here; getblk giving a buffer
      to another block. */
  datatype Step = Lock(bh: nat) | Submit(r: Req) | Advance | Complete | Unlock(bh: nat) | Recycle(bh: nat, id: Identity)

  predicate Locked(s: System, bh: nat) {
    bh in s.claimed || exists i {:trigger s.q[i]} :: 0 <= i < |s.q| && s.q[i].bh == bh
  }

  /** The queue as it was submitted, the head's sector back where it started. */
  ghost function Base(s: System): (q: seq<Req>)
    ensures |q| == |s.q|
  {
    if s.half && s.q != [] && s.q[0].sector > 0 then s.q[0 := s.q[0].(sector := s.q[0].sector - 1)] else s.q
  }

  ghost predicate OneBufferPerBlock(ids: map<nat, Identity>) {
    forall a, b | a in ids && b in ids && ids[a] == ids[b] :: a == b
  }

  /** What make_request fills in for a buffer. */
  ghost predicate IsFor(r: Req, ids: map<nat, Identity>) {
    r.bh in ids && r.dev == ids[r.bh].dev && r.sector == 2 * ids[r.bh].block
  }

  /** A queued request is for its own buffer, and holds that buffer's lock. */
  ghost predicate Queued(s: System, i: nat)
    requires i < |s.q|
  {
    Base(s)[i].bh !in s.claimed && IsFor(Base(s)[i], s.ids)
  }

  ghost predicate SystemOk(s: System) {
    && OneBufferPerBlock(s.ids)
    && (s.half ==> s.q != [] && s.q[0].sector > 0)
    && (forall i: nat {:trigger Queued(s, i)} | i < |s.q| :: Queued(s, i))
    && (forall i, j | 0 <= i < j < |s.q| :: Base(s)[i].bh != Base(s)[j].bh)
    && Shape(Base(s))
  }

  /** make_request takes the buffer's lock and hands it on to the request, end_request gives
      it up; only an unlocked buffer is given to another block, one that no buffer caches. */
  ghost predicate Next(s: System, t: System, step: Step) {
    match step
    case Lock(bh) => !Locked(s, bh) && t == s.(claimed := s.claimed + {bh})
    case Submit(r) => r.bh in s.claimed && IsFor(r, s.ids) && t == s.(q := Add(s.q, r), claimed := s.claimed - {r.bh})
    case Advance =>
      && s.q != [] && !s.half && t == s.(q := t.q, half := true) && |t.q| == |s.q|
      && t.q == s.q[0 := t.q[0]] && t.q[0] == s.q[0].(sector := t.q[0].sector) && t.q[0].sector == s.q[0].sector + 1
    case Complete => s.q != [] && t == s.(q := s.q[1..], half := false)
    case Unlock(bh) => t == s.(claimed := s.claimed - {bh})
    case Recycle(bh, id) => !Locked(s, bh) && t == s.(ids := s.ids[bh := id]) && OneBufferPerBlock(t.ids)
  }

  /** The lock makes keys distinct: no two queued requests are for the same block. */
  lemma LockMakesDistinct(s: System, r: Req)
    requires SystemOk(s) && r.bh in s.claimed && IsFor(r, s.ids)
    ensures Key(r) !in Keys(Base(s))
  {
    forall i: nat | i < |s.q| ensures Key(Base(s)[i]) != Key(r) {
      assert Queued(s, i);
      InOrderIsLess(Base(s)[i], r);
    }
  }

  /** A half-finished head does not change where requests go. */
  lemma SubmitBase(s: System, t: System, r: Req)
    requires SystemOk(s) && Next(s, t, Submit(r))
    ensures Base(t) == Add(Base(s), r)
  {
    if s.half {
      forall i | 0 <= i < |s.q| ensures Base(s)[i].sector % 2 == 0 {
        assert Queued(s, i);
      }
      TransferHarmless(Base(s), r, s.q[0]);
      assert Base(s)[0 := s.q[0]] == s.q;
      assert t.q == Add(Base(s), r)[0 := s.q[0]];
      assert Add(Base(s), r)[0] == Base(s)[0];
    }
  }

  lemma SubmitKeeps(s: System, t: System, r: Req)
    requires SystemOk(s) && Next(s, t, Submit(r))
    ensures SystemOk(t)
  {
    LockMakesDistinct(s, r);
    SubmitBase(s, t, r);
    AddKeepsShape(Base(s), r);
    var p: int :| 0 <= p <= |s.q| && (p == 0 ==> Base(s) == []) && Base(t) == Base(s)[..p] + [r] + Base(s)[p..];
    InsertKeepsQueued(s, t, r, p);
  }

  lemma InsertKeepsQueued(s: System, t: System, r: Req, p: nat)
    requires forall i: nat {:trigger Queued(s, i)} | i < |s.q| :: Queued(s, i)
    requires forall i, j | 0 <= i < j < |s.q| :: Base(s)[i].bh != Base(s)[j].bh
    requires r.bh in s.claimed && IsFor(r, s.ids)
    requires p <= |s.q| && Base(t) == Base(s)[..p] + [r] + Base(s)[p..] && t.claimed == s.claimed - {r.bh} && t.ids == s.ids
    ensures forall i: nat {:trigger Queued(t, i)} | i < |t.q| :: Queued(t, i)
    ensures forall i, j | 0 <= i < j < |t.q| :: Base(t)[i].bh != Base(t)[j].bh
  {
    var a, b := Base(s), Base(t);
    forall i: nat | i < |t.q| ensures Queued(t, i) && (i != p ==> b[i].bh != r.bh) {
      assert i < p ==> Queued(s, i) && b[i] == a[i];
      assert i > p ==> Queued(s, i - 1) && b[i] == a[i - 1];
    }
    forall i, j | 0 <= i < j < |t.q| ensures b[i].bh != b[j].bh {
      if i != p && j != p {
        assert b[i] == a[if i < p then i else i - 1] && b[j] == a[if j < p then j else j - 1];
      }
    }
  }

  lemma NextKeeps(s: System, t: System, step: Step)
    requires SystemOk(s) && Next(s, t, step)
    ensures SystemOk(t)
  {
    match step
    case Submit(r) => SubmitKeeps(s, t, r);
    case Complete =>
      CompleteKeepsShape(Base(s));
      assert Base(t) == Base(s)[1..];
      forall i: nat | i < |t.q| ensures Queued(t, i) {
        assert Queued(s, i + 1);
      }
    case _ =>
      assert Base(t) == Base(s);
      forall i: nat | i < |t.q| ensures Queued(t, i) {
        assert Queued(s, i) && s.q[i].bh == Base(s)[i].bh;
      }
  }

  lemma SubmitNoFurther(s: System, t: System, r: Req, i: nat)
    requires SystemOk(s) && Next(s, t, Submit(r)) && i < |s.q|
    ensures var j := Shifted(Base(s), r, i);
      j < |t.q| && Base(t)[j] == Base(s)[i] && Wait(Base(t), j) == Wait(Base(s), i)
  {
    LockMakesDistinct(s, r);
    SubmitBase(s, t, r);
    InsertionNoFurther(Base(s), r, i);
  }

  /** One step: the request at position i is served (-1), or is now at position j, no
      further away, and strictly closer if the step completed another. */
  lemma StepCloser(s: System, t: System, step: Step, i: nat) returns (j: int)
    requires SystemOk(s) && Next(s, t, step) && i < |s.q|
    ensures -1 <= j < |t.q|
    ensures if j == -1 then Base(s)[0] == Base(s)[i] && Base(t) == Base(s)[1..]
            else Base(t)[j] == Base(s)[i] && Wait(Base(t), j) + (if step.Complete? then 1 else 0) <= Wait(Base(s), i)
  {
    match step
    case Submit(r) =>
      SubmitNoFurther(s, t, r, i);
      return Shifted(Base(s), r, i);
    case Complete =>
      assert Base(t) == Base(s)[1..];
      if i > 0 {
        CompletionCloser(Base(s), i);
      }
      return i - 1;
    case _ =>
      assert Base(t) == Base(s);
      return i;
  }

  ghost predicate IsRun(states: seq<System>, steps: seq<Step>) {
    |states| == |steps| + 1 && forall k | 0 <= k < |steps| :: Next(states[k], states[k + 1], steps[k])
  }

  /** Completions among the first k steps. */
  ghost function Completions(steps: seq<Step>, k: nat): nat
    requires k <= |steps|
  {
    if k == 0 then 0 else Completions(steps, k - 1) + (if steps[k - 1].Complete? then 1 else 0)
  }

  /** Among the first n steps, one completed r as the head. */
  ghost predicate Served(states: seq<System>, n: nat, r: Req)
    requires n < |states|
  {
    exists k :: 0 <= k < n && Base(states[k]) != [] && Base(states[k])[0] == r && Base(states[k + 1]) == Base(states[k])[1..]
  }

  lemma {:induction false} Track(states: seq<System>, steps: seq<Step>, i: nat, n: nat) returns (j: int)
    requires IsRun(states, steps) && SystemOk(states[0]) && i < |states[0].q| && n <= |steps|
    ensures SystemOk(states[n]) && -1 <= j < |states[n].q|
    ensures j == -1 ==> Served(states, n, Base(states[0])[i])
    ensures j >= 0 ==> Base(states[n])[j] == Base(states[0])[i] && Completions(steps, n) + Wait(Base(states[n]), j) <= Wait(Base(states[0]), i)
    decreases n
  {
    if n == 0 {
      return i;
    }
    j := Track(states, steps, i, n - 1);
    var s, t := states[n - 1], states[n];
    assert Next(states[n - 1], states[n - 1 + 1], steps[n - 1]);
    NextKeeps(s, t, steps[n - 1]);
    if j >= 0 {
      j := StepCloser(s, t, steps[n - 1], j);
    }
  }

  /** No starvation: over every interleaving of locks, submissions, transfers, completions
      and buffers changing their blocks, a queued request is served within Wait completions,
      whatever is submitted meanwhile. */
  lemma NoStarvation(states: seq<System>, steps: seq<Step>, i: nat)
    requires IsRun(states, steps) && SystemOk(states[0]) && i < |states[0].q|
    requires Completions(steps, |steps|) > Wait(Base(states[0]), i)
    ensures Served(states, |steps|, Base(states[0])[i])
  {
    var j := Track(states, steps, i, |steps|);
  }
}
