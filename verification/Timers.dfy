/** The timer list of kernel/sched.c: expiry times stored as differences, and what
    add_timer's insertion really does to the timers behind the new one. */
module Timers {

  /** One pending timer. `asked` and `slip` are bookkeeping: the tick it was asked for,
      and by how much later insertions have pushed it back. */
  datatype Timer = Timer(delta: int, fn: nat, asked: int, slip: int)

  /** add_timer: from front to back, past every timer with a smaller delta than what is
      left of the new one's. The timers behind it keep their deltas. */
  function Insert(list: seq<Timer>, left: int, fn: nat, asked: int): (t: seq<Timer>)
    ensures |t| == |list| + 1
  {
    if list == [] || list[0].delta >= left then [Timer(left, fn, asked, 0)] + PushBack(list, left)
    else [list[0]] + Insert(list[1..], left - list[0].delta, fn, asked)
  }

  /** Bookkeeping only: the timers behind now expire that much later. */
  function PushBack(list: seq<Timer>, extra: int): (t: seq<Timer>)
    ensures |t| == |list|
    ensures forall k | 0 <= k < |list| :: t[k] == list[k].(slip := list[k].slip + extra)
  {
    seq(|list|, k requires 0 <= k < |list| => list[k].(slip := list[k].slip + extra))
  }

  /** Ticks until the k-th timer fires: the sum of the first k + 1 deltas. */
  function Off(list: seq<Timer>, k: nat): int
    requires k < |list|
  {
    list[0].delta + if k == 0 then 0 else Off(list[1..], k - 1)
  }

  ghost predicate Positive(list: seq<Timer>) {
    forall k | 0 <= k < |list| :: list[k].delta > 0
  }

  lemma {:induction false} OffGrows(list: seq<Timer>, k: nat)
    requires Positive(list) && k + 1 < |list|
    ensures 0 < Off(list, k) < Off(list, k + 1)
    decreases k
  {
    if k > 0 {
      OffGrows(list[1..], k - 1);
    }
  }

  /** The position add_timer gives the new timer. */
  function Position(list: seq<Timer>, left: int): (p: nat)
    ensures p <= |list|
  {
    if list == [] || list[0].delta >= left then 0 else 1 + Position(list[1..], left - list[0].delta)
  }

  /** What is left of the new timer's time when it reaches its place: its delta, and what
      the timers behind it slip by. */
  function Residual(list: seq<Timer>, left: int): int {
    if list == [] || list[0].delta >= left then left else Residual(list[1..], left - list[0].delta)
  }

  /** The residual is the time between the new timer and the one before it, and never 0. */
  lemma {:induction false} ResidualIs(list: seq<Timer>, left: int)
    requires left > 0
    ensures var p := Position(list, left);
      Residual(list, left) > 0 && Residual(list, left) == left - if p == 0 then 0 else Off(list, p - 1)
    decreases |list|
  {
    if list != [] && list[0].delta < left {
      ResidualIs(list[1..], left - list[0].delta);
    }
  }

  lemma {:induction false} InsertPositive(list: seq<Timer>, left: int, fn: nat, asked: int)
    requires Positive(list) && left > 0
    ensures var t, p := Insert(list, left, fn, asked), Position(list, left);
      Positive(t) && t[p] == Timer(Residual(list, left), fn, asked, 0)
    decreases |list|
  {
    if list != [] && list[0].delta < left {
      InsertPositive(list[1..], left - list[0].delta, fn, asked);
    }
  }

  /** The k-th timer of t: unchanged before the new one, as asked at it, slipped behind it. */
  ghost predicate Exact(list: seq<Timer>, t: seq<Timer>, p: nat, r: int, left: int, k: nat)
    requires p <= |list| && k < |t| == |list| + 1
  {
    if k < p then t[k] == list[k] && Off(t, k) == Off(list, k)
    else if k == p then Off(t, k) == left
    else t[k] == list[k - 1].(slip := list[k - 1].slip + r) && Off(t, k) == Off(list, k - 1) + r
  }

  lemma OffCons(x: Timer, rest: seq<Timer>, k: nat)
    requires k <= |rest|
    ensures Off([x] + rest, k) == x.delta + if k == 0 then 0 else Off(rest, k - 1)
  {
    assert ([x] + rest)[1..] == rest;
  }

  /** What an insertion does to the k-th expiry, exactly: the new timer expires when it was
      asked to; those before it are untouched; those behind it slip by its residual. */
  lemma {:induction false} InsertExact(list: seq<Timer>, left: int, fn: nat, asked: int, k: nat)
    requires k <= |list|
    ensures Exact(list, Insert(list, left, fn, asked), Position(list, left), Residual(list, left), left, k)
    decreases |list|
  {
    if list == [] || list[0].delta >= left {
      ExactFront(list, left, fn, asked, k);
    } else {
      var rest, l := list[1..], left - list[0].delta;
      var t, p, r := Insert(rest, l, fn, asked), Position(rest, l), Residual(rest, l);
      if k > 0 {
        InsertExact(rest, l, fn, asked, k - 1);
        ExactCons(list, t, p, r, left, k);
      } else {
        OffCons(list[0], t, 0);
        assert Exact(list, [list[0]] + t, p + 1, r, left, 0);
      }
    }
  }

  lemma ExactFront(list: seq<Timer>, left: int, fn: nat, asked: int, k: nat)
    requires k <= |list|
    ensures Exact(list, [Timer(left, fn, asked, 0)] + PushBack(list, left), 0, left, left, k)
  {
    OffCons(Timer(left, fn, asked, 0), PushBack(list, left), k);
    if k > 0 {
      PushedOff(list, left, k - 1);
    }
  }

  lemma ExactCons(list: seq<Timer>, t: seq<Timer>, p: nat, r: int, left: int, k: nat)
    requires list != [] && p <= |list[1..]| && 0 < k <= |t| == |list|
    requires Exact(list[1..], t, p, r, left - list[0].delta, k - 1)
    ensures Exact(list, [list[0]] + t, p + 1, r, left, k)
  {
    OffCons(list[0], t, k);
  }

  lemma {:induction false} PushedOff(list: seq<Timer>, extra: int, k: nat)
    requires k < |list|
    ensures Off(PushBack(list, extra), k) == Off(list, k)
    decreases k
  {
    if k > 0 {
      assert PushBack(list, extra)[1..] == PushBack(list[1..], extra);
      PushedOff(list[1..], extra, k - 1);
    }
  }

  /** Where the k-th timer is after an insertion. */
  function NewIndex(list: seq<Timer>, left: int, k: nat): (j: nat)
    requires k < |list|
    ensures j <= |list|
  {
    if k < Position(list, left) then k else k + 1
  }

  ghost predicate ExpiryKept(list: seq<Timer>, left: int, k: nat)
    requires k < |list|
  {
    Off(Insert(list, left, 0, 0), NewIndex(list, left, k)) == Off(list, k)
  }

  lemma KeptIffInFront(list: seq<Timer>, left: int, k: nat)
    requires Positive(list) && left > 0 && k < |list|
    ensures ExpiryKept(list, left, k) <==> k < Position(list, left)
  {
    ResidualIs(list, left);
    InsertExact(list, left, 0, 0, NewIndex(list, left, k));
  }

  /** add_timer leaves every pending timer's expiry alone exactly when the new timer is
      asked for later than the last of them. */
  lemma InsertHarmlessIff(list: seq<Timer>, left: int)
    requires Positive(list) && left > 0
    ensures (forall k: nat {:trigger ExpiryKept(list, left, k)} | k < |list| :: ExpiryKept(list, left, k))
      <==> (list == [] || left > Off(list, |list| - 1))
  {
    PositionIsEnd(list, left);
    var p := Position(list, left);
    forall k: nat | k < |list| ensures ExpiryKept(list, left, k) <==> k < p {
      KeptIffInFront(list, left, k);
    }
    if p < |list| {
      assert !ExpiryKept(list, left, p);
    }
  }

  lemma {:induction false} PositionIsEnd(list: seq<Timer>, left: int)
    requires Positive(list)
    ensures Position(list, left) == |list| <==> list == [] || left > Off(list, |list| - 1)
    decreases |list|
  {
    if list != [] && list[0].delta < left {
      PositionIsEnd(list[1..], left - list[0].delta);
    } else if list != [] {
      LastIsLargest(list);
    }
  }

  lemma {:induction false} LastIsLargest(list: seq<Timer>)
    requires Positive(list) && list != []
    ensures Off(list, |list| - 1) >= list[0].delta
    decreases |list|
  {
    if |list| > 1 {
      LastIsLargest(list[1..]);
    }
  }

  /** A timer asked for in 5 ticks fires after 8 when one for 3 is added behind its back. */
  lemma InsertionDelays()
    ensures var t := Insert([Timer(5, 1, 5, 0)], 3, 2, 3);
      Off(t, 0) == 3 && t[0].fn == 2 && Off(t, 1) == 8 && t[1].fn == 1
  {
    var list := [Timer(5, 1, 5, 0)];
    InsertExact(list, 3, 2, 3, 0);
    InsertExact(list, 3, 2, 3, 1);
    assert Position(list, 3) == 0 && Residual(list, 3) == 3;
  }

  // ---- ticks ----------------------------------------------------------------------

  /** do_timer's loop: fire while the front has expired. */
  function Expire(list: seq<Timer>): (r: (seq<Timer>, seq<Timer>))
    ensures r.1 + r.0 == list
  {
    if list == [] || list[0].delta > 0 then (list, [])
    else
      var (rest, fired) := Expire(list[1..]);
      (rest, [list[0]] + fired)
  }

  /** One tick: what is left and what fires. */
  function Tick(list: seq<Timer>): (seq<Timer>, seq<Timer>) {
    if list == [] then ([], []) else Expire([list[0].(delta := list[0].delta - 1)] + list[1..])
  }

  /** With positive deltas a tick fires at most the front timer, when it was one tick away. */
  lemma TickFiresOne(list: seq<Timer>)
    requires Positive(list)
    ensures var (rest, fired) := Tick(list);
      && Positive(rest)
      && if list != [] && list[0].delta == 1 then |fired| == 1 && fired[0].fn == list[0].fn && rest == list[1..]
         else fired == [] && rest == if list == [] then [] else list[0 := list[0].(delta := list[0].delta - 1)]
  {
    if list != [] {
      var l := [list[0].(delta := list[0].delta - 1)] + list[1..];
      assert l[1..] == list[1..];
      assert |list| > 1 ==> list[1..][0] == list[1] && list[1].delta > 0;
      assert Expire(list[1..]) == (list[1..], []);
      assert Expire(l) == if list[0].delta == 1 then (list[1..], [l[0]]) else (l, []);
    }
  }

  // ---- every run --------------------------------------------------------------------

  datatype State = State(now: int, list: seq<Timer>)

  /** A timer that fired, and the tick at which it did. */
  datatype Fired = Fired(at: int, timer: Timer)

  datatype Step = Add(jiffies: int, fn: nat) | OneTick

  /** The next state and what fires on the way. A non-positive request runs at once. */
  function Apply(s: State, step: Step): (State, seq<Fired>) {
    match step
    case Add(j, fn) =>
      if j <= 0 then (s, [Fired(s.now, Timer(j, fn, s.now + j, -j))])
      else (s.(list := Insert(s.list, j, fn, s.now + j)), [])
    case OneTick =>
      var (rest, fired) := Tick(s.list);
      (State(s.now + 1, rest), seq(|fired|, k requires 0 <= k < |fired| => Fired(s.now + 1, fired[k])))
  }

  /** Each pending timer will fire at the tick asked for plus what insertions have cost it. */
  ghost predicate OnTime(s: State, k: nat)
    requires k < |s.list|
  {
    s.now + Off(s.list, k) == s.list[k].asked + s.list[k].slip && s.list[k].slip >= 0
  }

  ghost predicate Inv(s: State) {
    Positive(s.list) && forall k: nat {:trigger OnTime(s, k)} | k < |s.list| :: OnTime(s, k)
  }

  /** Fired at the tick asked for plus its slip, so never early. */
  ghost predicate FiredRight(f: Fired) {
    f.at == f.timer.asked + f.timer.slip && f.timer.slip >= 0
  }

  lemma AddOnTime(s: State, t: State, j: int, fn: nat, k: nat)
    requires Inv(s) && j > 0 && t == s.(list := Insert(s.list, j, fn, s.now + j)) && k < |t.list|
    ensures OnTime(t, k)
  {
    var p := Position(s.list, j);
    InsertPositive(s.list, j, fn, s.now + j);
    ResidualIs(s.list, j);
    InsertExact(s.list, j, fn, s.now + j, k);
    assert k < p ==> OnTime(s, k);
    assert k > p ==> OnTime(s, k - 1);
  }

  lemma AddKeeps(s: State, j: int, fn: nat)
    requires Inv(s) && j > 0
    ensures Inv(s.(list := Insert(s.list, j, fn, s.now + j)))
  {
    var t := s.(list := Insert(s.list, j, fn, s.now + j));
    InsertPositive(s.list, j, fn, s.now + j);
    forall k: nat | k < |t.list| ensures OnTime(t, k) {
      AddOnTime(s, t, j, fn, k);
    }
  }

  lemma TickKeeps(s: State)
    requires Inv(s)
    ensures var (rest, fired) := Tick(s.list);
      Inv(State(s.now + 1, rest)) && |fired| <= 1 && (fired != [] ==> s.list != [] && OnTime(s, 0) && Off(s.list, 0) == 1 && fired[0] == s.list[0].(delta := 0))
  {
    TickFiresOne(s.list);
    var t := State(s.now + 1, Tick(s.list).0);
    if s.list != [] {
      assert OnTime(s, 0);
      var l := [s.list[0].(delta := s.list[0].delta - 1)] + s.list[1..];
      assert l[1..] == s.list[1..];
      forall k: nat | k < |t.list| ensures OnTime(t, k) {
        if s.list[0].delta == 1 {
          assert OnTime(s, k + 1);
        } else {
          assert t.list == l && OnTime(s, k);
        }
      }
    }
  }

  lemma StepKeeps(s: State, step: Step)
    requires Inv(s)
    ensures var (t, fired) := Apply(s, step);
      Inv(t) && |fired| <= 1 && forall f | f in fired :: FiredRight(f)
  {
    match step
    case Add(j, fn) => if j > 0 { AddKeeps(s, j, fn); }
    case OneTick => TickKeeps(s);
  }

  function Run(s: State, steps: seq<Step>): (State, seq<Fired>)
    decreases |steps|
  {
    if steps == [] then (s, []) else
    var (t, fired) := Apply(s, steps[0]);
    var (u, more) := Run(t, steps[1..]);
    (u, fired + more)
  }

  /** Over every run no timer fires early: each fires at the tick it asked for plus the
      residuals of the timers later put in front of it. */
  lemma {:induction false} NeverEarly(s: State, steps: seq<Step>)
    requires Inv(s)
    ensures Inv(Run(s, steps).0)
    ensures forall f | f in Run(s, steps).1 :: FiredRight(f) && f.at >= f.timer.asked
    decreases |steps|
  {
    if steps != [] {
      StepKeeps(s, steps[0]);
      NeverEarly(Apply(s, steps[0]).0, steps[1..]);
    }
  }
}
