/** read_pipe and write_pipe where they can sleep inside a pass: a pass first moves tail or
    head past its chunk, then copies it byte by byte, and each byte can fault on a page of the
    caller that is not there yet. */
module PipeRun {
  import opened Ring
  import opened Pipe

  /** What a pass has claimed and not copied: the next byte's position in the stream of all
      bytes ever claimed, counted from 0, and how many are left. */
  datatype Act = Reading(at: nat, left: nat) | Writing(at: nat, left: nat)

  /** The pipe, and for bookkeeping: how much was claimed by writers and by readers, which
      position's byte was last copied into each slot (-1: none), what readers got for each
      position, and which position that byte really came from. */
  datatype System = System(pipe: State, acts: map<nat, Act>, w: nat, r: nat, last: seq<int>, got: map<nat, int>, origin: map<nat, int>)

  /** The first half of a pass by activity a, and the copying of one byte. */
  datatype Step = ClaimRead(a: nat, count: nat) | ClaimWrite(a: nat, count: nat) | Copy(a: nat)

  function Slot(p: nat): (k: nat)
    ensures k < PAGE_SIZE
  {
    p % PAGE_SIZE
  }

  /** The claim with its next byte copied. */
  function Progress(acts: map<nat, Act>, a: nat): map<nat, Act>
    requires a in acts
  {
    match acts[a]
    case Reading(at, left) => if left <= 1 then acts - {a} else acts[a := Reading(at + 1, left - 1)]
    case Writing(at, left) => if left <= 1 then acts - {a} else acts[a := Writing(at + 1, left - 1)]
  }

  /** One step; `data` is the stream the writers write. A claim that finds nothing to move
      sleeps. */
  function Apply(data: nat -> int, m: System, step: Step): System
    requires Ok(m.pipe) && |m.last| == PAGE_SIZE
  {
    match step
    case ClaimRead(a, count) =>
      var n := ReadChars(m.pipe, count);
      if a in m.acts || n == 0 then m
      else m.(pipe := m.pipe.(tail := Wrap(m.pipe.tail + n, PAGE_SIZE)), acts := m.acts[a := Reading(m.r, n)], r := m.r + n)
    case ClaimWrite(a, count) =>
      var n := WriteChars(m.pipe, count);
      if a in m.acts || n == 0 then m
      else m.(pipe := m.pipe.(head := Wrap(m.pipe.head + n, PAGE_SIZE)), acts := m.acts[a := Writing(m.w, n)], w := m.w + n)
    case Copy(a) =>
      if a !in m.acts then m
      else
        var at := m.acts[a].at;
        if m.acts[a].Reading? then
          m.(acts := Progress(m.acts, a), got := m.got[at := m.pipe.page[Slot(at)]], origin := m.origin[at := m.last[Slot(at)]])
        else
          m.(acts := Progress(m.acts, a), pipe := m.pipe.(page := m.pipe.page[Slot(at) := data(at)]), last := m.last[Slot(at) := at])
  }

  /** Activity a has claimed position p and is still to copy it in, or out. */
  predicate Owes(acts: map<nat, Act>, a: nat, p: nat) {
    a in acts && acts[a].Writing? && acts[a].at <= p < acts[a].at + acts[a].left
  }

  predicate Wants(acts: map<nat, Act>, a: nat, p: nat) {
    a in acts && acts[a].Reading? && acts[a].at <= p < acts[a].at + acts[a].left
  }

  ghost predicate Owed(acts: map<nat, Act>, p: nat) { exists a: nat :: Owes(acts, a, p) }

  ghost predicate Wanted(acts: map<nat, Act>, p: nat) { exists a: nat :: Wants(acts, a, p) }

  // ---- what every step keeps --------------------------------------------------------------

  predicate ActOk(m: System, a: nat) {
    a in m.acts ==> m.acts[a].left > 0 && Slot(m.acts[a].at) + m.acts[a].left <= PAGE_SIZE
                    && m.acts[a].at + m.acts[a].left <= if m.acts[a].Reading? then m.r else m.w
  }

  ghost predicate LastOk(m: System, k: nat)
    requires k < |m.last|
  {
    m.last[k] == -1 || (0 <= m.last[k] < m.w && Slot(m.last[k]) == k && !Owed(m.acts, m.last[k]))
  }

  /** A position has been delivered if and only if a reader claimed it and has copied it. */
  ghost predicate DeliveredOk(m: System, q: nat) {
    (q in m.origin <==> q in m.got) && (q in m.got <==> q < m.r && !Wanted(m.acts, q))
  }

  ghost predicate Inv(m: System) {
    && Ok(m.pipe) && |m.last| == PAGE_SIZE
    && m.pipe.head == Slot(m.w) && m.pipe.tail == Slot(m.r) && m.r <= m.w < m.r + PAGE_SIZE
    && (forall a: nat {:trigger ActOk(m, a)} :: ActOk(m, a))
    && (forall k: nat {:trigger LastOk(m, k)} | k < PAGE_SIZE :: LastOk(m, k))
    && (forall q: nat {:trigger DeliveredOk(m, q)} :: DeliveredOk(m, q))
    && (forall a: nat, b: nat, p: nat {:trigger Owes(m.acts, a, p), Owes(m.acts, b, p)} | Owes(m.acts, a, p) && Owes(m.acts, b, p) :: a == b)
    && (forall a: nat, b: nat, p: nat {:trigger Wants(m.acts, a, p), Wants(m.acts, b, p)} | Wants(m.acts, a, p) && Wants(m.acts, b, p) :: a == b)
  }

  /** How far the slot index is from wrapping, and how much is in the ring. */
  lemma Sizes(m: System)
    requires Ok(m.pipe) && m.pipe.head == Slot(m.w) && m.pipe.tail == Slot(m.r) && m.r <= m.w < m.r + PAGE_SIZE
    ensures |Unread(m.pipe)| == m.w - m.r
  {
  }

  lemma SlotNext(p: nat, n: nat)
    requires Slot(p) + n <= PAGE_SIZE
    ensures Slot(p + n) == Wrap(Slot(p) + n, PAGE_SIZE)
    ensures n < PAGE_SIZE - Slot(p) ==> Slot(p + n) == Slot(p) + n
  {
  }

  lemma ClaimActs(acts: map<nat, Act>, a: nat, act: Act)
    requires a !in acts
    ensures forall b: nat, p: nat {:trigger Owes(acts[a := act], b, p)} ::
      Owes(acts[a := act], b, p) <==> Owes(acts, b, p) || (b == a && act.Writing? && act.at <= p < act.at + act.left)
    ensures forall b: nat, p: nat {:trigger Wants(acts[a := act], b, p)} ::
      Wants(acts[a := act], b, p) <==> Wants(acts, b, p) || (b == a && act.Reading? && act.at <= p < act.at + act.left)
    ensures forall p: nat {:trigger Owed(acts[a := act], p)} ::
      Owed(acts[a := act], p) <==> Owed(acts, p) || (act.Writing? && act.at <= p < act.at + act.left)
    ensures forall p: nat {:trigger Wanted(acts[a := act], p)} ::
      Wanted(acts[a := act], p) <==> Wanted(acts, p) || (act.Reading? && act.at <= p < act.at + act.left)
  {
    var t := acts[a := act];
    forall b: nat, p: nat ensures Owes(t, b, p) <==> Owes(acts, b, p) || (b == a && act.Writing? && act.at <= p < act.at + act.left) {
    }
    forall b: nat, p: nat ensures Wants(t, b, p) <==> Wants(acts, b, p) || (b == a && act.Reading? && act.at <= p < act.at + act.left) {
    }
    forall p: nat ensures Owed(t, p) <==> Owed(acts, p) || (act.Writing? && act.at <= p < act.at + act.left) {
      if Owed(acts, p) {
        var b: nat :| Owes(acts, b, p);
        assert Owes(t, b, p);
      }
      assert Owes(t, a, p) <==> act.Writing? && act.at <= p < act.at + act.left;
    }
    forall p: nat ensures Wanted(t, p) <==> Wanted(acts, p) || (act.Reading? && act.at <= p < act.at + act.left) {
      if Wanted(acts, p) {
        var b: nat :| Wants(acts, b, p);
        assert Wants(t, b, p);
      }
      assert Wants(t, a, p) <==> act.Reading? && act.at <= p < act.at + act.left;
    }
  }

  lemma ProgressActs(m: System, a: nat)
    requires Inv(m) && a in m.acts
    ensures var t, act := Progress(m.acts, a), m.acts[a];
      && (forall b: nat, p: nat {:trigger Owes(t, b, p)} :: Owes(t, b, p) <==> Owes(m.acts, b, p) && !(b == a && p == act.at))
      && (forall b: nat, p: nat {:trigger Wants(t, b, p)} :: Wants(t, b, p) <==> Wants(m.acts, b, p) && !(b == a && p == act.at))
      && (forall p: nat {:trigger Owed(t, p)} :: Owed(t, p) <==> Owed(m.acts, p) && !(act.Writing? && p == act.at))
      && (forall p: nat {:trigger Wanted(t, p)} :: Wanted(t, p) <==> Wanted(m.acts, p) && !(act.Reading? && p == act.at))
  {
    var t, act := Progress(m.acts, a), m.acts[a];
    assert ActOk(m, a);
    forall b: nat, p: nat ensures Owes(t, b, p) <==> Owes(m.acts, b, p) && !(b == a && p == act.at) {
    }
    forall b: nat, p: nat ensures Wants(t, b, p) <==> Wants(m.acts, b, p) && !(b == a && p == act.at) {
    }
    assert Owes(m.acts, a, act.at) || Wants(m.acts, a, act.at);
    forall p: nat ensures Owed(t, p) <==> Owed(m.acts, p) && !(act.Writing? && p == act.at) {
      if Owed(m.acts, p) {
        var b: nat :| Owes(m.acts, b, p);
        assert (b == a && p == act.at) || Owes(t, b, p);
      }
    }
    forall p: nat ensures Wanted(t, p) <==> Wanted(m.acts, p) && !(act.Reading? && p == act.at) {
      if Wanted(m.acts, p) {
        var b: nat :| Wants(m.acts, b, p);
        assert (b == a && p == act.at) || Wants(t, b, p);
      }
    }
  }

  lemma NobodyBeyond(m: System, p: nat)
    requires Inv(m)
    ensures p >= m.w ==> !Owed(m.acts, p)
    ensures p >= m.r ==> !Wanted(m.acts, p)
  {
    forall a: nat ensures (p >= m.w ==> !Owes(m.acts, a, p)) && (p >= m.r ==> !Wants(m.acts, a, p)) {
      assert ActOk(m, a);
    }
  }

  lemma ClaimReadKeeps(data: nat -> int, m: System, a: nat, count: nat)
    requires Inv(m)
    ensures Inv(Apply(data, m, ClaimRead(a, count)))
  {
    var t := Apply(data, m, ClaimRead(a, count));
    Sizes(m);
    if t != m {
      SlotNext(m.r, t.acts[a].left);
      ClaimActs(m.acts, a, t.acts[a]);
      ClaimOk(m, t, a);
    }
  }

  lemma ClaimWriteKeeps(data: nat -> int, m: System, a: nat, count: nat)
    requires Inv(m)
    ensures Inv(Apply(data, m, ClaimWrite(a, count)))
  {
    var t := Apply(data, m, ClaimWrite(a, count));
    Sizes(m);
    if t != m {
      SlotNext(m.w, t.acts[a].left);
      ClaimActs(m.acts, a, t.acts[a]);
      ClaimOk(m, t, a);
    }
  }

  lemma ClaimOk(m: System, t: System, a: nat)
    requires Inv(m) && a !in m.acts && a in t.acts && t.acts == m.acts[a := t.acts[a]]
    requires t == m.(pipe := t.pipe, acts := t.acts, r := t.r, w := t.w) && ActOk(t, a)
    requires var act := t.acts[a];
      if act.Reading? then act.at == m.r && t.r == m.r + act.left && t.w == m.w else act.at == m.w && t.w == m.w + act.left && t.r == m.r
    ensures forall b: nat {:trigger ActOk(t, b)} :: ActOk(t, b)
    ensures forall k: nat {:trigger LastOk(t, k)} | k < PAGE_SIZE :: LastOk(t, k)
    ensures forall q: nat {:trigger DeliveredOk(t, q)} :: DeliveredOk(t, q)
    ensures forall b: nat, c: nat, p: nat {:trigger Owes(t.acts, b, p), Owes(t.acts, c, p)} | Owes(t.acts, b, p) && Owes(t.acts, c, p) :: b == c
    ensures forall b: nat, c: nat, p: nat {:trigger Wants(t.acts, b, p), Wants(t.acts, c, p)} | Wants(t.acts, b, p) && Wants(t.acts, c, p) :: b == c
  {
    ClaimActs(m.acts, a, t.acts[a]);
    forall p: nat ensures (p >= m.w ==> !Owed(m.acts, p)) && (p >= m.r ==> !Wanted(m.acts, p)) {
      NobodyBeyond(m, p);
    }
    forall b: nat ensures ActOk(t, b) {
      assert ActOk(m, b);
    }
    forall k: nat | k < PAGE_SIZE ensures LastOk(t, k) {
      assert LastOk(m, k);
    }
    forall q: nat ensures DeliveredOk(t, q) {
      assert DeliveredOk(m, q);
    }
    forall b: nat, p: nat | Owes(m.acts, b, p) ensures p < m.w {
      assert Owed(m.acts, p);
    }
    forall b: nat, p: nat | Wants(m.acts, b, p) ensures p < m.r {
      assert Wanted(m.acts, p);
    }
    forall b: nat, c: nat, p: nat | Owes(t.acts, b, p) && Owes(t.acts, c, p) ensures b == c {
    }
    forall b: nat, c: nat, p: nat | Wants(t.acts, b, p) && Wants(t.acts, c, p) ensures b == c {
    }
  }

  lemma CopyActs(data: nat -> int, m: System, a: nat, b: nat)
    requires Inv(m) && a in m.acts
    ensures var t := Apply(data, m, Copy(a)); ActOk(t, b)
  {
    var act := m.acts[a];
    assert ActOk(m, a) && ActOk(m, b);
    if b == a && act.left > 1 {
      SlotNext(act.at, 1);
    }
  }

  lemma CopyLast(data: nat -> int, m: System, a: nat, k: nat)
    requires Inv(m) && a in m.acts && k < PAGE_SIZE
    ensures var t := Apply(data, m, Copy(a)); k < |t.last| && LastOk(t, k)
  {
    assert ActOk(m, a) && LastOk(m, k);
    ProgressActs(m, a);
  }

  lemma CopyDelivers(data: nat -> int, m: System, a: nat, q: nat)
    requires Inv(m) && a in m.acts
    ensures DeliveredOk(Apply(data, m, Copy(a)), q)
  {
    assert ActOk(m, a) && DeliveredOk(m, q);
    ProgressActs(m, a);
    assert m.acts[a].Reading? ==> Wants(m.acts, a, m.acts[a].at);
  }

  lemma CopyKeeps(data: nat -> int, m: System, a: nat)
    requires Inv(m)
    ensures Inv(Apply(data, m, Copy(a)))
  {
    if a in m.acts {
      var t := Apply(data, m, Copy(a));
      ProgressActs(m, a);
      forall b: nat ensures ActOk(t, b) {
        CopyActs(data, m, a, b);
      }
      forall k: nat | k < PAGE_SIZE ensures LastOk(t, k) {
        CopyLast(data, m, a, k);
      }
      forall q: nat ensures DeliveredOk(t, q) {
        CopyDelivers(data, m, a, q);
      }
    }
  }

  lemma StepKeeps(data: nat -> int, m: System, step: Step)
    requires Inv(m)
    ensures Inv(Apply(data, m, step))
  {
    match step
    case ClaimRead(a, count) => ClaimReadKeeps(data, m, a, count);
    case ClaimWrite(a, count) => ClaimWriteKeeps(data, m, a, count);
    case Copy(a) => CopyKeeps(data, m, a);
  }

  // ---- what is read -------------------------------------------------------------------------

  /** The byte of stream position p, or for -1 what was in the slot at first. */
  function ByteOf(data: nat -> int, init: seq<int>, p: int, k: nat): int
    requires k < |init|
  {
    if p < 0 then init[k] else data(p)
  }

  ghost predicate SlotHas(data: nat -> int, init: seq<int>, m: System, k: nat)
    requires k < |init| && k < |m.pipe.page| && k < |m.last|
  {
    m.pipe.page[k] == ByteOf(data, init, m.last[k], k)
  }

  ghost predicate GotFrom(data: nat -> int, init: seq<int>, m: System, q: nat)
    requires |init| == PAGE_SIZE
  {
    q in m.got ==> q in m.origin && m.got[q] == ByteOf(data, init, m.origin[q], Slot(q))
  }

  /** Each slot holds the byte last copied in, and each byte got is its origin's. */
  ghost predicate Contents(data: nat -> int, init: seq<int>, m: System)
    requires |init| == PAGE_SIZE
  {
    && |m.pipe.page| == |m.last| == PAGE_SIZE
    && (forall k: nat {:trigger SlotHas(data, init, m, k)} | k < PAGE_SIZE :: SlotHas(data, init, m, k))
    && forall q: nat {:trigger GotFrom(data, init, m, q)} :: GotFrom(data, init, m, q)
  }

  lemma ContentsKept(data: nat -> int, init: seq<int>, m: System, step: Step)
    requires Inv(m) && |init| == PAGE_SIZE && Contents(data, init, m)
    ensures Contents(data, init, Apply(data, m, step))
  {
    var t := Apply(data, m, step);
    forall k: nat | k < PAGE_SIZE ensures SlotHas(data, init, t, k) {
      assert SlotHas(data, init, m, k);
    }
    forall q: nat ensures GotFrom(data, init, t, q) {
      assert GotFrom(data, init, m, q) && SlotHas(data, init, m, Slot(q));
    }
  }

  function Run(data: nat -> int, m: System, steps: seq<Step>): (t: System)
    requires Inv(m)
    ensures Inv(t)
    decreases |steps|
  {
    if steps == [] then m else StepKeeps(data, m, steps[0]); Run(data, Apply(data, m, steps[0]), steps[1..])
  }

  lemma {:induction false} ContentsRun(data: nat -> int, init: seq<int>, m: System, steps: seq<Step>)
    requires Inv(m) && |init| == PAGE_SIZE && Contents(data, init, m)
    ensures Contents(data, init, Run(data, m, steps))
    decreases |steps|
  {
    if steps != [] {
      ContentsKept(data, init, m, steps[0]);
      StepKeeps(data, m, steps[0]);
      ContentsRun(data, init, Apply(data, m, steps[0]), steps[1..]);
    }
  }

  /** An empty pipe, whatever is in its page. */
  ghost function Empty(init: seq<int>): (m: System)
    requires |init| == PAGE_SIZE
    ensures Inv(m)
  {
    System(State(init, 0, 0), map[], 0, 0, seq(PAGE_SIZE, _ => -1), map[], map[])
  }

  lemma EmptyContents(data: nat -> int, init: seq<int>)
    requires |init| == PAGE_SIZE
    ensures Contents(data, init, Empty(init))
  {
  }

  /** Where a byte is copied out, the byte last copied into its slot is its own. */
  predicate Clean(m: System, step: Step)
    requires Inv(m)
  {
    step.Copy? && step.a in m.acts && m.acts[step.a].Reading? ==> m.last[Slot(m.acts[step.a].at)] == m.acts[step.a].at
  }

  ghost predicate AllClean(data: nat -> int, m: System, steps: seq<Step>)
    requires Inv(m)
    decreases |steps|
  {
    steps == [] || (Clean(m, steps[0]) && (StepKeeps(data, m, steps[0]); AllClean(data, Apply(data, m, steps[0]), steps[1..])))
  }

  /** Every byte got came from the position it was got for. */
  ghost predicate OwnBytes(m: System) {
    forall q: nat | q in m.origin :: m.origin[q] == q
  }

  lemma {:induction false} OriginStays(data: nat -> int, m: System, steps: seq<Step>, q: nat)
    requires Inv(m) && q in m.origin
    ensures q in Run(data, m, steps).origin && Run(data, m, steps).origin[q] == m.origin[q]
    decreases |steps|
  {
    if steps != [] {
      StepKeeps(data, m, steps[0]);
      CopiedOnce(m, steps[0], q);
      OriginStays(data, Apply(data, m, steps[0]), steps[1..], q);
    }
  }

  /** A position is delivered only once. */
  lemma CopiedOnce(m: System, step: Step, q: nat)
    requires Inv(m) && q in m.origin
    ensures step.Copy? && step.a in m.acts && m.acts[step.a].Reading? ==> m.acts[step.a].at != q
  {
    assert DeliveredOk(m, q);
    if step.Copy? && step.a in m.acts && m.acts[step.a].Reading? {
      assert ActOk(m, step.a);
      assert Wants(m.acts, step.a, m.acts[step.a].at);
    }
  }

  lemma {:induction false} CleanIsOwn(data: nat -> int, m: System, steps: seq<Step>)
    requires Inv(m) && OwnBytes(m)
    ensures AllClean(data, m, steps) <==> OwnBytes(Run(data, m, steps))
    decreases |steps|
  {
    if steps != [] {
      var t := Apply(data, m, steps[0]);
      StepKeeps(data, m, steps[0]);
      if Clean(m, steps[0]) {
        CleanIsOwn(data, t, steps[1..]);
      } else {
        OriginStays(data, t, steps[1..], m.acts[steps[0].a].at);
      }
    }
  }

  // ---- first in, first out ----------------------------------------------------------------------

  /** Everything but the bytes themselves. */
  predicate SameControl(m: System, t: System) {
    && t == m.(pipe := t.pipe, got := t.got)
    && t.pipe.head == m.pipe.head && t.pipe.tail == m.pipe.tail
  }

  lemma ControlCopy(data: nat -> int, m: System, other: nat -> int, t: System, a: nat)
    requires Inv(m) && Inv(t) && SameControl(m, t)
    ensures SameControl(Apply(data, m, Copy(a)), Apply(other, t, Copy(a)))
  {
  }

  lemma ControlStep(data: nat -> int, m: System, other: nat -> int, t: System, step: Step)
    requires Inv(m) && Inv(t) && SameControl(m, t)
    ensures SameControl(Apply(data, m, step), Apply(other, t, step)) && (Clean(m, step) <==> Clean(t, step))
  {
    match step
    case Copy(a) => ControlCopy(data, m, other, t, a);
    case ClaimRead(a, count) =>
      Sizes(m);
      Sizes(t);
      assert ReadChars(m.pipe, count) == ReadChars(t.pipe, count);
    case ClaimWrite(a, count) =>
      Sizes(m);
      Sizes(t);
      assert WriteChars(m.pipe, count) == WriteChars(t.pipe, count);
  }

  /** Who moves what when does not depend on the bytes. */
  lemma {:induction false} ControlRun(data: nat -> int, m: System, other: nat -> int, t: System, steps: seq<Step>)
    requires Inv(m) && Inv(t) && SameControl(m, t)
    ensures SameControl(Run(data, m, steps), Run(other, t, steps))
    ensures AllClean(data, m, steps) <==> AllClean(other, t, steps)
    decreases |steps|
  {
    if steps != [] {
      StepKeeps(data, m, steps[0]);
      StepKeeps(other, t, steps[0]);
      ControlStep(data, m, other, t, steps[0]);
      ControlRun(data, Apply(data, m, steps[0]), other, Apply(other, t, steps[0]), steps[1..]);
    }
  }

  /** What readers got for each position is the byte written there. */
  ghost predicate Delivered(data: nat -> int, m: System) {
    forall q: nat | q in m.got :: m.got[q] == data(q)
  }

  /** First in, first out, for every content of the stream and of the page, if and only if
      each byte is copied out of a slot into which it was the last one copied. */
  lemma FifoIff(data: nat -> int, init: seq<int>, steps: seq<Step>)
    requires |init| == PAGE_SIZE
    ensures AllClean(data, Empty(init), steps) <==>
      forall d: nat -> int, c: seq<int> {:trigger Delivered(d, Run(d, Empty(c), steps))} | |c| == PAGE_SIZE ::
        Delivered(d, Run(d, Empty(c), steps))
  {
    CleanIsOwn(data, Empty(init), steps);
    var t := Run(data, Empty(init), steps);
    forall d: nat -> int, c: seq<int> | |c| == PAGE_SIZE ensures OwnBytes(t) ==> Delivered(d, Run(d, Empty(c), steps)) {
      OwnIsDelivered(data, init, d, c, steps);
    }
    if !OwnBytes(t) {
      var q: nat :| q in t.origin && t.origin[q] != q;
      Tell(data, init, steps, q);
    }
  }

  lemma OwnIsDelivered(data: nat -> int, init: seq<int>, d: nat -> int, c: seq<int>, steps: seq<Step>)
    requires |init| == |c| == PAGE_SIZE
    ensures OwnBytes(Run(data, Empty(init), steps)) ==> Delivered(d, Run(d, Empty(c), steps))
  {
    var t := Run(d, Empty(c), steps);
    EmptyContents(d, c);
    ContentsRun(d, c, Empty(c), steps);
    ControlRun(data, Empty(init), d, Empty(c), steps);
    if OwnBytes(Run(data, Empty(init), steps)) {
      forall q: nat | q in t.got ensures t.got[q] == d(q) {
        assert GotFrom(d, c, t, q) && DeliveredOk(t, q);
      }
    }
  }

  /** One byte that differs from all others shows what came from where. */
  lemma Tell(data: nat -> int, init: seq<int>, steps: seq<Step>, q: nat)
    requires |init| == PAGE_SIZE
    requires var t := Run(data, Empty(init), steps); q in t.origin && t.origin[q] != q
    ensures exists d: nat -> int, c: seq<int> :: |c| == PAGE_SIZE && !Delivered(d, Run(d, Empty(c), steps))
  {
    var d: nat -> int := p => if p == q then 1 else 0;
    var c: seq<int> := seq(PAGE_SIZE, _ => 0);
    EmptyContents(d, c);
    ContentsRun(d, c, Empty(c), steps);
    ControlRun(data, Empty(init), d, Empty(c), steps);
    var t := Run(d, Empty(c), steps);
    assert GotFrom(d, c, t, q) && DeliveredOk(t, q);
    assert t.got[q] == 0 && d(q) == 1;
  }

  /** From an empty pipe, a clean run delivers in order exactly what readers have claimed and
      copied, each byte once, and readers are at most 4095 bytes behind. */
  lemma CleanReadsArePrefix(data: nat -> int, init: seq<int>, steps: seq<Step>, q: nat)
    requires |init| == PAGE_SIZE && AllClean(data, Empty(init), steps)
    ensures var t := Run(data, Empty(init), steps);
      && t.r <= t.w <= t.r + 4095
      && (q in t.got <==> q < t.r && !Wanted(t.acts, q)) && (q in t.got ==> t.got[q] == data(q))
  {
    FifoIff(data, init, steps);
    var t := Run(data, Empty(init), steps);
    assert DeliveredOk(t, q);
    assert Delivered(data, t);
  }

  // ---- which claims keep it so --------------------------------------------------------------------

  /** A claim takes no position whose byte is still to be copied in, and no slot from which a
      byte is still to be copied out. */
  ghost predicate Safe(m: System, step: Step)
    requires Inv(m)
  {
    match step
    case ClaimRead(a, count) =>
      a in m.acts || forall p: nat | m.r <= p < m.r + ReadChars(m.pipe, count) :: !Owed(m.acts, p)
    case ClaimWrite(a, count) =>
      a in m.acts || forall p: nat, q: nat | m.w <= p < m.w + WriteChars(m.pipe, count) && Wanted(m.acts, q) :: Slot(p) != Slot(q)
    case Copy(_) => true
  }

  /** Unread bytes that are not still to be copied in are in their slots. */
  ghost predicate UnreadOk(m: System, p: nat)
    requires |m.last| == PAGE_SIZE
  {
    m.r <= p < m.w ==> Owed(m.acts, p) || m.last[Slot(p)] == p
  }

  /** So are bytes still to be copied out, ... */
  ghost predicate WantedOk(m: System, q: nat)
    requires |m.last| == PAGE_SIZE
  {
    Wanted(m.acts, q) ==> m.last[Slot(q)] == q
  }

  /** ... and what is still to be copied in does not go there. */
  ghost predicate OwedOk(m: System, p: nat) {
    Owed(m.acts, p) ==> m.r <= p && forall q: nat | Wanted(m.acts, q) :: Slot(q) != Slot(p)
  }

  ghost predicate SafeInv(m: System) {
    && Inv(m)
    && (forall p: nat {:trigger UnreadOk(m, p)} :: UnreadOk(m, p))
    && (forall q: nat {:trigger WantedOk(m, q)} :: WantedOk(m, q))
    && (forall p: nat {:trigger OwedOk(m, p)} :: OwedOk(m, p))
  }

  lemma EmptySafe(init: seq<int>)
    requires |init| == PAGE_SIZE
    ensures SafeInv(Empty(init))
  {
  }

  lemma SlotsApart(p: nat, q: nat)
    requires p < q < p + PAGE_SIZE
    ensures Slot(p) != Slot(q)
  {
  }

  lemma SafeReadKeeps(data: nat -> int, m: System, a: nat, count: nat)
    requires SafeInv(m) && Safe(m, ClaimRead(a, count))
    ensures SafeInv(Apply(data, m, ClaimRead(a, count)))
  {
    var t := Apply(data, m, ClaimRead(a, count));
    StepKeeps(data, m, ClaimRead(a, count));
    if t != m {
      Sizes(m);
      ClaimActs(m.acts, a, t.acts[a]);
      forall p: nat ensures UnreadOk(t, p) {
        assert UnreadOk(m, p);
      }
      forall q: nat ensures WantedOk(t, q) {
        assert UnreadOk(m, q) && WantedOk(m, q);
      }
      forall p: nat ensures OwedOk(t, p) {
        assert OwedOk(m, p);
        OwedApart(m, t, p);
      }
    }
  }

  /** What was just claimed for reading has other slots than what is still to be copied in. */
  lemma OwedApart(m: System, t: System, p: nat)
    requires Inv(m) && OwedOk(m, p) && t.r <= m.w && m.r <= t.r
    requires forall q: nat :: Wanted(t.acts, q) ==> Wanted(m.acts, q) || m.r <= q < t.r
    requires forall q: nat :: Owed(t.acts, q) <==> Owed(m.acts, q)
    requires forall q: nat | m.r <= q < t.r :: !Owed(m.acts, q)
    ensures OwedOk(t, p)
  {
    if Owed(t.acts, p) {
      NobodyBeyond(m, p);
      forall q: nat | Wanted(t.acts, q) ensures Slot(q) != Slot(p) {
        if !Wanted(m.acts, q) {
          SlotsApart(q, p);
        }
      }
    }
  }

  lemma SafeWriteKeeps(data: nat -> int, m: System, a: nat, count: nat)
    requires SafeInv(m) && Safe(m, ClaimWrite(a, count))
    ensures SafeInv(Apply(data, m, ClaimWrite(a, count)))
  {
    var t := Apply(data, m, ClaimWrite(a, count));
    StepKeeps(data, m, ClaimWrite(a, count));
    if t != m {
      Sizes(m);
      ClaimActs(m.acts, a, t.acts[a]);
      forall p: nat ensures UnreadOk(t, p) {
        assert UnreadOk(m, p);
      }
      forall q: nat ensures WantedOk(t, q) {
        assert WantedOk(m, q);
      }
      forall p: nat ensures OwedOk(t, p) {
        assert OwedOk(m, p);
      }
    }
  }

  lemma SafeCopyKeeps(data: nat -> int, m: System, a: nat)
    requires SafeInv(m)
    ensures SafeInv(Apply(data, m, Copy(a))) && Clean(m, Copy(a))
  {
    var t := Apply(data, m, Copy(a));
    StepKeeps(data, m, Copy(a));
    if a in m.acts {
      var at := m.acts[a].at;
      assert ActOk(m, a);
      ProgressActs(m, a);
      if m.acts[a].Reading? {
        assert Wants(m.acts, a, at) && Wanted(m.acts, at) && WantedOk(m, at);
      } else {
        assert Owes(m.acts, a, at) && Owed(m.acts, at) && OwedOk(m, at);
      }
      forall p: nat ensures UnreadOk(t, p) {
        assert UnreadOk(m, p);
        if m.r <= p < m.w && m.acts[a].Writing? && p != at {
          if p < at { SlotsApart(p, at); } else { SlotsApart(at, p); }
        }
      }
      forall q: nat ensures WantedOk(t, q) {
        assert WantedOk(m, q);
      }
      forall p: nat ensures OwedOk(t, p) {
        assert OwedOk(m, p);
      }
    }
  }

  lemma SafeKeeps(data: nat -> int, m: System, step: Step)
    requires SafeInv(m) && Safe(m, step)
    ensures SafeInv(Apply(data, m, step)) && Clean(m, step)
  {
    match step
    case ClaimRead(a, count) => SafeReadKeeps(data, m, a, count);
    case ClaimWrite(a, count) => SafeWriteKeeps(data, m, a, count);
    case Copy(a) => SafeCopyKeeps(data, m, a);
  }

  ghost predicate AllSafe(data: nat -> int, m: System, steps: seq<Step>)
    requires Inv(m)
    decreases |steps|
  {
    steps == [] || (Safe(m, steps[0]) && (StepKeeps(data, m, steps[0]); AllSafe(data, Apply(data, m, steps[0]), steps[1..])))
  }

  lemma {:induction false} SafeIsClean(data: nat -> int, m: System, steps: seq<Step>)
    requires SafeInv(m) && AllSafe(data, m, steps)
    ensures AllClean(data, m, steps) && SafeInv(Run(data, m, steps))
    decreases |steps|
  {
    if steps != [] {
      SafeKeeps(data, m, steps[0]);
      SafeIsClean(data, Apply(data, m, steps[0]), steps[1..]);
    }
  }

  /** With safe claims, and nothing under way, what is in the pipe is what was written and not
      yet read, in order. */
  lemma SafeUnread(data: nat -> int, init: seq<int>, m: System)
    requires SafeInv(m) && |init| == PAGE_SIZE && Contents(data, init, m) && m.acts == map[]
    ensures |Unread(m.pipe)| == m.w - m.r && forall i: nat | i < m.w - m.r :: Unread(m.pipe)[i] == data(m.r + i)
  {
    Sizes(m);
    forall i: nat | i < m.w - m.r ensures Unread(m.pipe)[i] == data(m.r + i) {
      assert UnreadOk(m, m.r + i) && SlotHas(data, init, m, Slot(m.r + i));
      SlotOf(m.r, i);
    }
  }

  lemma SlotOf(p: nat, i: nat)
    requires i < PAGE_SIZE
    ensures Slot(p + i) == Wrap(Slot(p) + i, PAGE_SIZE)
  {
  }

  lemma {:induction false} SafeContents(data: nat -> int, init: seq<int>, steps: seq<Step>)
    requires |init| == PAGE_SIZE && AllSafe(data, Empty(init), steps)
    ensures var t := Run(data, Empty(init), steps); AllClean(data, Empty(init), steps) && SafeInv(t) && Contents(data, init, t)
  {
    EmptySafe(init);
    EmptyContents(data, init);
    SafeIsClean(data, Empty(init), steps);
    ContentsRun(data, init, Empty(init), steps);
  }

  /** If every claim is safe, then once all is copied what was read, in order, then what is in
      the pipe, is what was written. */
  lemma SafeFifo(data: nat -> int, init: seq<int>, steps: seq<Step>)
    requires |init| == PAGE_SIZE && AllSafe(data, Empty(init), steps) && Run(data, Empty(init), steps).acts == map[]
    ensures var t := Run(data, Empty(init), steps);
      && (forall q: nat {:trigger t.got[q]} | q < t.r :: q in t.got && t.got[q] == data(q))
      && |Unread(t.pipe)| == t.w - t.r && forall i: nat | i < t.w - t.r :: Unread(t.pipe)[i] == data(t.r + i)
  {
    var t := Run(data, Empty(init), steps);
    SafeContents(data, init, steps);
    SafeUnread(data, init, t);
    forall q: nat | q < t.r ensures q in t.got && t.got[q] == data(q) {
      CleanReadsArePrefix(data, init, steps, q);
    }
  }

  // ---- unsafe claims ------------------------------------------------------------------------------

  function Copies(a: nat, n: nat): seq<Step> { seq(n, _ => Copy(a)) }

  lemma {:induction false} RunThen(data: nat -> int, m: System, s: seq<Step>, t: seq<Step>)
    requires Inv(m)
    ensures Run(data, m, s + t) == Run(data, Run(data, m, s), t)
    ensures AllClean(data, m, s + t) ==> AllClean(data, Run(data, m, s), t)
    decreases |s|
  {
    if s == [] {
      assert s + t == t;
    } else {
      StepKeeps(data, m, s[0]);
      assert (s + t)[1..] == s[1..] + t;
      RunThen(data, Apply(data, m, s[0]), s[1..], t);
    }
  }

  /** A claim after n of its bytes were copied. */
  function Rest(acts: map<nat, Act>, a: nat, n: nat): map<nat, Act>
    requires a in acts && n <= acts[a].left
  {
    if n == acts[a].left then acts - {a}
    else acts[a := match acts[a]
                   case Reading(at, left) => Reading(at + n, left - n)
                   case Writing(at, left) => Writing(at + n, left - n)]
  }

  /** n bytes of activity a's claim have been copied out, nothing else happening. */
  ghost predicate CopiedOut(m: System, t: System, a: nat, n: nat)
    requires Inv(m) && a in m.acts && n <= m.acts[a].left
  {
    && t == m.(acts := Rest(m.acts, a, n), got := t.got, origin := t.origin)
    && forall q: nat {:trigger t.got[q]} | m.acts[a].at <= q < m.acts[a].at + n :: q in t.got && t.got[q] == m.pipe.page[Slot(q)]
  }

  lemma {:induction false} ReadCopies(data: nat -> int, m: System, a: nat, n: nat)
    requires Inv(m) && a in m.acts && m.acts[a].Reading? && n <= m.acts[a].left
    ensures CopiedOut(m, Run(data, m, Copies(a, n)), a, n)
    decreases n
  {
    if n == 0 {
      assert Copies(a, n) == [] && (m.acts[a].left > 0 ==> Rest(m.acts, a, 0) == m.acts);
      assert ActOk(m, a);
    } else {
      ReadCopies(data, m, a, n - 1);
      OneMoreCopy(data, m, a, n - 1);
      ReadCopy(data, m, Run(data, m, Copies(a, n - 1)), a, n - 1);
    }
  }

  lemma ReadCopy(data: nat -> int, m: System, t: System, a: nat, n: nat)
    requires Inv(m) && Inv(t) && a in m.acts && m.acts[a].Reading? && n < m.acts[a].left && CopiedOut(m, t, a, n)
    ensures CopiedOut(m, Apply(data, t, Copy(a)), a, n + 1)
  {
    var u := Apply(data, t, Copy(a));
    assert t.acts[a] == Reading(m.acts[a].at + n, m.acts[a].left - n);
    assert Progress(t.acts, a) == Rest(m.acts, a, n + 1);
    assert u == t.(acts := u.acts, got := u.got, origin := u.origin);
    forall q: nat | m.acts[a].at <= q < m.acts[a].at + n + 1 ensures q in u.got && u.got[q] == m.pipe.page[Slot(q)] {
      assert q < m.acts[a].at + n ==> q in t.got && t.got[q] == m.pipe.page[Slot(q)];
    }
  }

  lemma OneMoreCopy(data: nat -> int, m: System, a: nat, n: nat)
    requires Inv(m)
    ensures Run(data, m, Copies(a, n + 1)) == Apply(data, Run(data, m, Copies(a, n)), Copy(a))
  {
    var u := Run(data, m, Copies(a, n));
    RunThen(data, m, Copies(a, n), [Copy(a)]);
    assert Copies(a, n + 1) == Copies(a, n) + [Copy(a)];
    StepKeeps(data, u, Copy(a));
    assert [Copy(a)][1..] == [];
  }

  /** ... or copied in: the bytes are in the page, and the slots say so. */
  ghost predicate CopiedIn(data: nat -> int, m: System, t: System, a: nat, n: nat)
    requires Inv(m) && a in m.acts && n <= m.acts[a].left
  {
    var k0, at := Slot(m.acts[a].at), m.acts[a].at;
    && t == m.(acts := Rest(m.acts, a, n), pipe := m.pipe.(page := t.pipe.page), last := t.last)
    && |t.pipe.page| == |t.last| == PAGE_SIZE
    && (forall k: nat {:trigger t.last[k]} | k < PAGE_SIZE :: t.last[k] == if k0 <= k < k0 + n then at + k - k0 else m.last[k])
    && (forall k: nat {:trigger t.pipe.page[k]} | k < PAGE_SIZE ::
          t.pipe.page[k] == if k0 <= k < k0 + n then data(at + k - k0) else m.pipe.page[k])
  }

  lemma {:induction false} WriteCopies(data: nat -> int, m: System, a: nat, n: nat)
    requires Inv(m) && a in m.acts && m.acts[a].Writing? && n <= m.acts[a].left
    ensures CopiedIn(data, m, Run(data, m, Copies(a, n)), a, n)
    decreases n
  {
    assert ActOk(m, a);
    if n == 0 {
      assert Copies(a, n) == [] && (m.acts[a].left > 0 ==> Rest(m.acts, a, 0) == m.acts);
    } else {
      WriteCopies(data, m, a, n - 1);
      OneMoreCopy(data, m, a, n - 1);
      WriteCopy(data, m, Run(data, m, Copies(a, n - 1)), a, n - 1);
    }
  }

  lemma WriteCopy(data: nat -> int, m: System, t: System, a: nat, n: nat)
    requires Inv(m) && Inv(t) && a in m.acts && m.acts[a].Writing? && n < m.acts[a].left && CopiedIn(data, m, t, a, n)
    ensures CopiedIn(data, m, Apply(data, t, Copy(a)), a, n + 1)
  {
    var u := Apply(data, t, Copy(a));
    assert ActOk(m, a);
    SlotNext(m.acts[a].at, n);
    assert t.acts[a] == Writing(m.acts[a].at + n, m.acts[a].left - n);
    assert Progress(t.acts, a) == Rest(m.acts, a, n + 1);
    assert u == t.(acts := u.acts, pipe := t.pipe.(page := u.pipe.page), last := u.last);
  }

  /** A reader that has come to a position whose slot has another byte. */
  lemma StopsAt(data: nat -> int, m: System, a: nat, p: nat) returns (steps: seq<Step>)
    requires Inv(m) && Wants(m.acts, a, p) && m.last[Slot(p)] != p
    ensures (forall s | s in steps :: s.Copy?) && !AllClean(data, m, steps)
  {
    var n := p - m.acts[a].at;
    ReadCopies(data, m, a, n);
    var u := Run(data, m, Copies(a, n));
    assert u.last == m.last && u.acts[a].at == p && !Clean(u, Copy(a));
    RunThen(data, m, Copies(a, n), [Copy(a)]);
    steps := Copies(a, n) + [Copy(a)];
  }

  /** After an unsafe claim for reading, a byte is copied out before it was copied in. */
  lemma UnsafeRead(data: nat -> int, m: System, a: nat, count: nat) returns (steps: seq<Step>)
    requires Inv(m) && !Safe(m, ClaimRead(a, count))
    ensures (forall s | s in steps :: s.Copy?) && Inv(Apply(data, m, ClaimRead(a, count)))
    ensures !AllClean(data, Apply(data, m, ClaimRead(a, count)), steps)
  {
    StepKeeps(data, m, ClaimRead(a, count));
    var p: nat :| m.r <= p < m.r + ReadChars(m.pipe, count) && Owed(m.acts, p);
    assert LastOk(m, Slot(p));
    steps := StopsAt(data, Apply(data, m, ClaimRead(a, count)), a, p);
  }

  /** After an unsafe claim for writing, a byte is overwritten before it is copied out. */
  lemma UnsafeWrite(data: nat -> int, m: System, a: nat, count: nat) returns (steps: seq<Step>)
    requires Inv(m) && !Safe(m, ClaimWrite(a, count))
    ensures (forall s | s in steps :: s.Copy?) && Inv(Apply(data, m, ClaimWrite(a, count)))
    ensures !AllClean(data, Apply(data, m, ClaimWrite(a, count)), steps)
  {
    var t := Apply(data, m, ClaimWrite(a, count));
    StepKeeps(data, m, ClaimWrite(a, count));
    var p: nat, q: nat :| m.w <= p < m.w + WriteChars(m.pipe, count) && Wanted(m.acts, q) && Slot(p) == Slot(q);
    NobodyBeyond(m, q);
    var b: nat :| Wants(m.acts, b, q);
    var n := p - m.w + 1;
    var u := Overwrite(data, t, a, n, p);
    assert b in u.acts && u.acts[b] == m.acts[b];
    var rest := StopsAt(data, u, b, q);
    RunThen(data, t, Copies(a, n), rest);
    steps := Copies(a, n) + rest;
  }

  lemma Overwrite(data: nat -> int, t: System, a: nat, n: nat, p: nat) returns (u: System)
    requires Inv(t) && a in t.acts && t.acts[a].Writing? && 0 < n <= t.acts[a].left && p == t.acts[a].at + n - 1
    ensures u == Run(data, t, Copies(a, n)) && u.last[Slot(p)] == p && forall b: nat | b != a && b in t.acts :: b in u.acts && u.acts[b] == t.acts[b]
  {
    assert ActOk(t, a);
    SlotNext(t.acts[a].at, n - 1);
    WriteCopies(data, t, a, n);
    u := Run(data, t, Copies(a, n));
  }

  /** A claim is safe if and only if, in whatever order the claimed bytes are then copied, each
      byte delivered is its own. */
  lemma SafeIff(data: nat -> int, m: System, step: Step)
    requires SafeInv(m)
    ensures Inv(Apply(data, m, step))
    ensures Safe(m, step) <==> forall steps: seq<Step> {:trigger AllClean(data, Apply(data, m, step), steps)} |
      (forall s | s in steps :: s.Copy?) :: AllClean(data, Apply(data, m, step), steps)
  {
    StepKeeps(data, m, step);
    if Safe(m, step) {
      SafeKeeps(data, m, step);
      forall steps: seq<Step> | (forall s | s in steps :: s.Copy?) ensures AllClean(data, Apply(data, m, step), steps) {
        CopiesAreSafe(data, Apply(data, m, step), steps);
        SafeIsClean(data, Apply(data, m, step), steps);
      }
    } else {
      match step
      case ClaimRead(a, count) => var steps := UnsafeRead(data, m, a, count);
      case ClaimWrite(a, count) => var steps := UnsafeWrite(data, m, a, count);
    }
  }

  lemma {:induction false} CopiesAreSafe(data: nat -> int, m: System, steps: seq<Step>)
    requires Inv(m) && forall s | s in steps :: s.Copy?
    ensures AllSafe(data, m, steps)
    decreases |steps|
  {
    if steps != [] {
      StepKeeps(data, m, steps[0]);
      assert steps[0] in steps && forall s | s in steps[1..] :: s in steps;
      CopiesAreSafe(data, Apply(data, m, steps[0]), steps[1..]);
    }
  }

  // ---- passes nobody disturbs, and two that are disturbed ------------------------------------------

  function ReadPass(m: System, a: nat, count: nat): seq<Step>
    requires Ok(m.pipe)
  {
    [ClaimRead(a, count)] + Copies(a, ReadChars(m.pipe, count))
  }

  function WritePass(m: System, a: nat, count: nat): seq<Step>
    requires Ok(m.pipe)
  {
    [ClaimWrite(a, count)] + Copies(a, WriteChars(m.pipe, count))
  }

  lemma PassRun(data: nat -> int, m: System, first: Step, rest: seq<Step>)
    requires Inv(m)
    ensures Inv(Apply(data, m, first)) && Run(data, m, [first] + rest) == Run(data, Apply(data, m, first), rest)
  {
    StepKeeps(data, m, first);
    assert ([first] + rest)[1..] == rest;
  }

  lemma AllIn(data: nat -> int, m: System, u: System, t: System, a: nat, bytes: seq<int>)
    requires Inv(m) && Inv(u) && a !in m.acts && u.acts == m.acts[a := Writing(m.w, |bytes|)] && u.pipe.page == m.pipe.page
    requires CopiedIn(data, u, t, a, |bytes|) && m.pipe.head + |bytes| <= PAGE_SIZE && forall i: nat | i < |bytes| :: bytes[i] == data(m.w + i)
    ensures t.acts == m.acts && t.pipe.page == Store(m.pipe.page, m.pipe.head, bytes)
  {
    assert u.acts - {a} == m.acts;
    var page := Store(m.pipe.page, m.pipe.head, bytes);
    forall k: nat | k < PAGE_SIZE ensures t.pipe.page[k] == page[k] {
    }
  }

  lemma AllOut(m: System, u: System, t: System, a: nat, n: nat)
    requires Inv(m) && Inv(u) && a !in m.acts && n > 0 && u.acts == m.acts[a := Reading(m.r, n)] && u.pipe.page == m.pipe.page
    requires CopiedOut(u, t, a, n) && m.pipe.tail + n <= PAGE_SIZE
    ensures t.acts == m.acts
    ensures var bytes := m.pipe.page[m.pipe.tail..m.pipe.tail + n];
      forall i: nat {:trigger bytes[i]} | i < |bytes| :: m.r + i in t.got && t.got[m.r + i] == bytes[i]
  {
    assert u.acts - {a} == m.acts;
    var bytes := m.pipe.page[m.pipe.tail..m.pipe.tail + n];
    forall i: nat | i < |bytes| ensures m.r + i in t.got && t.got[m.r + i] == bytes[i] {
      SlotNext(m.r, i);
      assert u.acts[a].at <= m.r + i < u.acts[a].at + n && m.r + i in t.got;
    }
  }

  /** A whole pass of a writer is WriteChunk. */
  lemma WholeWrite(data: nat -> int, m: System, a: nat, count: nat)
    requires Inv(m) && a !in m.acts
    ensures var t := Run(data, m, WritePass(m, a, count));
      var bytes := seq(count, i requires 0 <= i < count => data(m.w + i));
      && t.pipe == WriteChunk(m.pipe, bytes).0 && t.w == m.w + WriteChunk(m.pipe, bytes).1
      && t.acts == m.acts && t.r == m.r && t.got == m.got && t.origin == m.origin && |t.last| == |m.last|
      && forall k: nat | k < PAGE_SIZE :: t.last[k] == if Slot(m.w) <= k < Slot(m.w) + (t.w - m.w) then m.w + k - Slot(m.w) else m.last[k]
  {
    var n := WriteChars(m.pipe, count);
    var bytes := seq(count, i requires 0 <= i < count => data(m.w + i));
    var u := Apply(data, m, ClaimWrite(a, count));
    PassRun(data, m, ClaimWrite(a, count), Copies(a, n));
    if n > 0 {
      WriteCopies(data, u, a, n);
      AllIn(data, m, u, Run(data, u, Copies(a, n)), a, bytes[..n]);
    } else {
      assert Copies(a, n) == [];
      assert Store(m.pipe.page, m.pipe.head, bytes[..n]) == m.pipe.page;
    }
  }

  /** A whole pass of a reader is ReadChunk. */
  lemma WholeRead(data: nat -> int, m: System, a: nat, count: nat)
    requires Inv(m) && a !in m.acts
    ensures var t := Run(data, m, ReadPass(m, a, count));
      var (pipe, bytes) := ReadChunk(m.pipe, count);
      && t.pipe == pipe && t.r == m.r + |bytes| && t.acts == m.acts && t.w == m.w && t.last == m.last
      && forall i: nat {:trigger bytes[i]} | i < |bytes| :: m.r + i in t.got && t.got[m.r + i] == bytes[i]
  {
    var n := ReadChars(m.pipe, count);
    var u := Apply(data, m, ClaimRead(a, count));
    PassRun(data, m, ClaimRead(a, count), Copies(a, n));
    if n > 0 {
      ReadCopies(data, u, a, n);
      AllOut(m, u, Run(data, u, Copies(a, n)), a, n);
    } else {
      assert Copies(a, n) == [];
    }
  }

  /** A writer sleeps in the fault of its first byte: a reader gets what was in the slot, and
      the byte written is in the pipe for nobody. */
  lemma StaleByte(data: nat -> int, init: seq<int>)
    requires |init| == PAGE_SIZE && init[0] == 0 && data(0) == 120
    ensures var t := Run(data, Empty(init), [ClaimWrite(0, 1), ClaimRead(1, 1), Copy(1), Copy(0)]);
      0 in t.got && t.got[0] == 0 && Unread(t.pipe) == []
  {
    var m0 := Empty(init);
    var m1 := Apply(data, m0, ClaimWrite(0, 1));
    StepKeeps(data, m0, ClaimWrite(0, 1));
    var m2 := Apply(data, m1, ClaimRead(1, 1));
    StepKeeps(data, m1, ClaimRead(1, 1));
    var m3 := Apply(data, m2, Copy(1));
    StepKeeps(data, m2, Copy(1));
    var m4 := Apply(data, m3, Copy(0));
    StepKeeps(data, m3, Copy(0));
    assert |Unread(m1.pipe)| == 1 && m1.acts[0] == Writing(0, 1);
    assert m2.acts[1] == Reading(0, 1) && Unread(m2.pipe) == [];
    assert m4.got == m3.got && Unread(m4.pipe) == [];
    assert Run(data, m3, [Copy(0)]) == m4 by {
      assert [Copy(0)][1..] == [];
    }
    assert [Copy(1), Copy(0)][1..] == [Copy(0)];
    assert [ClaimRead(1, 1), Copy(1), Copy(0)][1..] == [Copy(1), Copy(0)];
    assert [ClaimWrite(0, 1), ClaimRead(1, 1), Copy(1), Copy(0)][1..] == [ClaimRead(1, 1), Copy(1), Copy(0)];
  }

  /** A reader of two bytes sleeps in the fault of its first: writers fill the pipe and reach
      that slot again, and the reader gets the byte 4096 positions on. */
  lemma OverwrittenByte(data: nat -> int, init: seq<int>) returns (steps: seq<Step>)
    requires |init| == PAGE_SIZE
    ensures var t := Run(data, Empty(init), steps); 0 in t.got && t.got[0] == data(4096)
  {
    var m0 := Empty(init);
    var s1 := WritePass(m0, 0, 2);
    WholeWrite(data, m0, 0, 2);
    var m1 := Run(data, m0, s1);
    Sizes(m1);
    var m2 := Apply(data, m1, ClaimRead(1, 2));
    StepKeeps(data, m1, ClaimRead(1, 2));
    assert m2.acts == map[1 := Reading(0, 2)] && m2.w == 2 && m2.r == 2;
    Sizes(m2);
    var s2 := WritePass(m2, 0, 4094);
    WholeWrite(data, m2, 0, 4094);
    var m3 := Run(data, m2, s2);
    assert m3.w == 4096 && m3.pipe.head == 0;
    Sizes(m3);
    var s3 := WritePass(m3, 0, 1);
    WholeWrite(data, m3, 0, 1);
    var m4 := Run(data, m3, s3);
    assert m4.acts == map[1 := Reading(0, 2)] && m4.pipe.page[0] == data(4096);
    var m5 := Apply(data, m4, Copy(1));
    PassRun(data, m4, Copy(1), []);
    RunThen(data, m3, s3, [Copy(1)] + []);
    RunThen(data, m2, s2, s3 + ([Copy(1)] + []));
    PassRun(data, m1, ClaimRead(1, 2), s2 + (s3 + ([Copy(1)] + [])));
    steps := s1 + ([ClaimRead(1, 2)] + (s2 + (s3 + ([Copy(1)] + []))));
    RunThen(data, m0, s1, [ClaimRead(1, 2)] + (s2 + (s3 + ([Copy(1)] + []))));
  }
}
