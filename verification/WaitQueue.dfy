/** sleep_on and wake_up of kernel/sched.c. A wait queue is one pointer; the rest of the
    queue lives in the `tmp` variables of the sleepers' own stack frames. Whatever the
    interleaving, nobody is lost. */
module WaitQueue {

  const NIL: int := -1

  /** A sleep_on call in progress: the queue it was called for and its `tmp`. `since` is
      bookkeeping: the number of sleep_on calls before this one. */
  datatype Frame = NoFrame | Frame(queue: nat, tmp: int, since: nat)

  /** `waiting`: state is TASK_UNINTERRUPTIBLE rather than TASK_RUNNING. */
  datatype Task = Task(waiting: bool, frame: Frame)

  datatype State = State(heads: seq<int>, tasks: seq<Task>, clock: nat)

  /** sleep_on up to its call of schedule; sleep_on from there on; wake_up. */
  datatype Step = Sleep(t: nat, q: nat) | Resume(t: nat) | WakeUp(q: nat)

  predicate Enabled(s: State, step: Step) {
    match step
    case Sleep(t, q) => 0 < t < |s.tasks| && q < |s.heads| && s.tasks[t] == Task(false, NoFrame)
    case Resume(t) => t < |s.tasks| && Woken(s, t)
    case WakeUp(q) => q < |s.heads|
  }

  /** Runnable again, but still to return from schedule inside sleep_on. */
  predicate Woken(s: State, t: int) {
    0 <= t < |s.tasks| && !s.tasks[t].waiting && s.tasks[t].frame.Frame?
  }

  function MakeRunning(s: State, t: int): State {
    if 0 <= t < |s.tasks| then s.(tasks := s.tasks[t := s.tasks[t].(waiting := false)]) else s
  }

  function Apply(s: State, step: Step): State
    requires Enabled(s, step)
  {
    match step
    case Sleep(t, q) =>
      State(s.heads[q := t], s.tasks[t := Task(true, Frame(q, s.heads[q], s.clock))], s.clock + 1)
    case Resume(t) =>
      var r := MakeRunning(s, s.tasks[t].frame.tmp);
      r.(tasks := r.tasks[t := r.tasks[t].(frame := NoFrame)])
    case WakeUp(q) => MakeRunning(s, s.heads[q]).(heads := s.heads[q := NIL])
  }

  // ---- the invariant --------------------------------------------------------------

  predicate SleepsOn(s: State, t: int, q: nat) {
    0 <= t < |s.tasks| && s.tasks[t].waiting && s.tasks[t].frame.Frame? && s.tasks[t].frame.queue == q
  }

  /** u's frame points to t. */
  predicate Points(s: State, u: int, t: int) {
    0 <= u < |s.tasks| && s.tasks[u].frame.Frame? && s.tasks[u].frame.tmp == t && t != NIL
  }

  predicate Heads(s: State, q: int, t: int) {
    0 <= q < |s.heads| && s.heads[q] == t && t != NIL
  }

  /** A frame saves a sleeper of the same queue that went to sleep before. */
  predicate FrameOk(s: State, u: int)
    requires 0 <= u < |s.tasks|
  {
    && (s.tasks[u].waiting ==> s.tasks[u].frame.Frame?)
    && (s.tasks[u].frame.Frame? ==>
         var f := s.tasks[u].frame;
         && f.queue < |s.heads| && f.since < s.clock
         && (f.tmp != NIL ==> SleepsOn(s, f.tmp, f.queue) && s.tasks[f.tmp].frame.since < f.since))
  }

  /** Pointed to by the head of its queue or by a frame. */
  ghost predicate Reached(s: State, t: int)
    requires 0 <= t < |s.tasks|
  {
    s.tasks[t].waiting && s.tasks[t].frame.Frame? ==>
      Heads(s, s.tasks[t].frame.queue, t) || exists u: int :: Points(s, u, t)
  }

  ghost predicate Inv(s: State) {
    && (forall q: int, t: int {:trigger Heads(s, q, t)} :: Heads(s, q, t) ==> SleepsOn(s, t, q))
    && (forall u: int {:trigger FrameOk(s, u)} | 0 <= u < |s.tasks| :: FrameOk(s, u))
    && (forall t: int {:trigger Reached(s, t)} | 0 <= t < |s.tasks| :: Reached(s, t))
    // nobody is pointed to twice
    && (forall u: int, v: int, t: int {:trigger Points(s, u, t), Points(s, v, t)} :: Points(s, u, t) && Points(s, v, t) ==> u == v)
    && (forall q: int, u: int, t: int {:trigger Heads(s, q, t), Points(s, u, t)} :: !(Heads(s, q, t) && Points(s, u, t)))
  }

  lemma SleepKeeps(s: State, t: nat, q: nat)
    requires Inv(s) && Enabled(s, Sleep(t, q))
    ensures Inv(Apply(s, Sleep(t, q)))
  {
    var r := Apply(s, Sleep(t, q));
    forall u: int | 0 <= u < |r.tasks| ensures FrameOk(r, u) && Reached(r, u) {
      assert FrameOk(s, u) && Reached(s, u);
      assert Heads(r, q, t);
      if u != t && r.tasks[u].waiting {
        if Heads(s, s.tasks[u].frame.queue, u) {
          assert s.tasks[u].frame.queue == q ==> Points(r, t, u);
          assert s.tasks[u].frame.queue != q ==> Heads(r, s.tasks[u].frame.queue, u);
        } else {
          var v :| Points(s, v, u);
          assert Points(r, v, u);
        }
      }
      assert s.heads[q] != NIL ==> Heads(s, q, s.heads[q]) && FrameOk(s, s.heads[q]);
    }
    SleepPointers(s, t, q);
  }

  lemma SleepPointers(s: State, t: nat, q: nat)
    requires Inv(s) && Enabled(s, Sleep(t, q))
    ensures var r := Apply(s, Sleep(t, q));
      && (forall p: int, v: int :: Heads(r, p, v) ==> SleepsOn(r, v, p))
      && (forall u: int, v: int, w: int :: Points(r, u, w) && Points(r, v, w) ==> u == v)
      && (forall p: int, u: int, w: int :: !(Heads(r, p, w) && Points(r, u, w)))
  {
    var r := Apply(s, Sleep(t, q));
    forall p: int, v: int | Heads(r, p, v) ensures SleepsOn(r, v, p) && (p != q ==> Heads(s, p, v)) {
      assert p != q ==> Heads(s, p, v);
    }
    forall u: int, w: int | Points(r, u, w)
      ensures w != t && if u == t then Heads(s, q, w) else Points(s, u, w)
    {
      assert u != t ==> Points(s, u, w) && FrameOk(s, u);
      assert u == t ==> Heads(s, q, w);
    }
  }

  lemma ResumeKeeps(s: State, t: nat)
    requires Inv(s) && Enabled(s, Resume(t))
    ensures Inv(Apply(s, Resume(t)))
  {
    var r, v := Apply(s, Resume(t)), s.tasks[t].frame.tmp;
    assert FrameOk(s, t) && (v != NIL ==> Points(s, t, v));
    forall u: int, w: int | Points(r, u, w) ensures Points(s, u, w) && w != v {
      assert Points(s, u, w);
    }
    forall q: int, w: int | Heads(r, q, w) ensures SleepsOn(r, w, q) && Heads(s, q, w) {
      assert Heads(s, q, w);
    }
    forall u: int | 0 <= u < |r.tasks| ensures FrameOk(r, u) && Reached(r, u) {
      assert FrameOk(s, u) && Reached(s, u);
      assert r.tasks[u].frame.Frame? && r.tasks[u].frame.tmp != NIL ==> Points(r, u, r.tasks[u].frame.tmp);
      if r.tasks[u].waiting {
        if Heads(s, s.tasks[u].frame.queue, u) {
          assert Heads(r, s.tasks[u].frame.queue, u);
        } else {
          var x :| Points(s, x, u);
          assert Points(r, x, u);
        }
      }
    }
  }

  lemma WakeUpKeeps(s: State, q: nat)
    requires Inv(s) && Enabled(s, WakeUp(q))
    ensures Inv(Apply(s, WakeUp(q)))
  {
    var r, v := Apply(s, WakeUp(q)), s.heads[q];
    assert v != NIL ==> Heads(s, q, v);
    forall u: int, w: int | Points(r, u, w) ensures Points(s, u, w) && w != v {
      assert Points(s, u, w);
    }
    forall p: int, w: int | Heads(r, p, w) ensures SleepsOn(r, w, p) && Heads(s, p, w) {
      assert Heads(s, p, w);
    }
    forall u: int | 0 <= u < |r.tasks| ensures FrameOk(r, u) && Reached(r, u) {
      assert FrameOk(s, u) && Reached(s, u);
      assert r.tasks[u].frame.Frame? && r.tasks[u].frame.tmp != NIL ==> Points(r, u, r.tasks[u].frame.tmp);
      if r.tasks[u].waiting {
        if Heads(s, s.tasks[u].frame.queue, u) {
          assert Heads(r, s.tasks[u].frame.queue, u);
        } else {
          var x :| Points(s, x, u);
          assert Points(r, x, u);
        }
      }
    }
  }

  lemma StepKeeps(s: State, step: Step)
    requires Inv(s) && Enabled(s, step)
    ensures Inv(Apply(s, step))
  {
    match step
    case Sleep(t, q) => SleepKeeps(s, t, q);
    case Resume(t) => ResumeKeeps(s, t);
    case WakeUp(q) => WakeUpKeeps(s, q);
  }

  /** No task asleep and every queue empty, as at boot. */
  lemma InitiallyInv(queues: nat, tasks: nat)
    ensures Inv(State(seq(queues, _ => NIL), seq(tasks, _ => Task(false, NoFrame)), 0))
  {
    var s := State(seq(queues, _ => NIL), seq(tasks, _ => Task(false, NoFrame)), 0);
    forall u: int | 0 <= u < tasks ensures FrameOk(s, u) && Reached(s, u) {}
  }

  // ---- chains -----------------------------------------------------------------------

  /** The k-th task down the saved pointers from t. */
  function Down(s: State, t: int, k: nat): int
    decreases k
  {
    if k == 0 then t
    else if 0 <= t < |s.tasks| && s.tasks[t].frame.Frame? then Down(s, s.tasks[t].frame.tmp, k - 1)
    else NIL
  }

  lemma {:induction false} DownOne(s: State, r: int, k: nat, u: int, t: int)
    requires Down(s, r, k) == u && Points(s, u, t)
    ensures Down(s, r, k + 1) == t
    decreases k
  {
    if k > 0 {
      DownOne(s, s.tasks[r].frame.tmp, k - 1, u, t);
    } else {
      assert Down(s, t, 0) == t;
    }
  }

  /** t waits and will be reached from the woken task r, when k woken tasks have resumed. */
  predicate Released(s: State, r: int, t: int, k: nat) {
    0 <= t < |s.tasks| && s.tasks[t].waiting && Woken(s, r) && k > 0 && Down(s, r, k) == t
  }

  /** t waits and is reached from the head of q. */
  predicate Queued(s: State, q: nat, t: int, k: nat) {
    0 <= t < |s.tasks| && s.tasks[t].waiting && q < |s.heads| && Down(s, s.heads[q], k) == t
  }

  /** Every sleeper is on the chain of its queue's head or on that of a woken task. */
  lemma {:induction false} Climb(s: State, q: nat, t: int) returns (r: int, k: nat)
    requires Inv(s) && SleepsOn(s, t, q)
    ensures Released(s, r, t, k) || Queued(s, q, t, k)
    decreases s.clock - s.tasks[t].frame.since
  {
    assert FrameOk(s, t) && Reached(s, t);
    if Heads(s, q, t) {
      r, k := t, 0;
    } else {
      var u: int :| Points(s, u, t);
      assert FrameOk(s, u);
      if !s.tasks[u].waiting {
        r, k := u, 1;
        assert Down(s, t, 0) == t;
      } else {
        r, k := Climb(s, q, u);
        if Released(s, r, u, k) {
          DownOne(s, r, k, u, t);
        } else {
          DownOne(s, s.heads[q], k, u, t);
        }
        k := k + 1;
      }
    }
  }

  /** wake_up releases every task asleep on the queue. */
  lemma WakeUpReleases(s: State, q: nat, t: int) returns (r: int, k: nat)
    requires Inv(s) && q < |s.heads| && SleepsOn(s, t, q)
    ensures var w := Apply(s, WakeUp(q)); !w.tasks[t].waiting || Released(w, r, t, k)
  {
    var w := Apply(s, WakeUp(q));
    r, k := t, 0;
    WakeUpKeeps(s, q);
    if w.tasks[t].waiting {
      r, k := Climb(w, q, t);
      assert Down(w, NIL, k) == NIL;
    }
  }

  /** What a step leaves alone. */
  lemma {:induction false} DownKept(s: State, step: Step, u: int, k: nat)
    requires Inv(s) && Enabled(s, step) && 0 <= u < |s.tasks|
    requires s.tasks[u].frame.Frame? && Apply(s, step).tasks[u].frame == s.tasks[u].frame && step != Resume(u)
    ensures Down(Apply(s, step), u, k) == Down(s, u, k)
    ensures var t := Down(s, u, k); k > 0 && t != NIL ==>
      0 <= t < |s.tasks| && Apply(s, step).tasks[t] == s.tasks[t] && s.tasks[t].waiting
    decreases k
  {
    if k > 0 {
      var v, w := s.tasks[u].frame.tmp, Apply(s, step);
      assert FrameOk(s, u) && Down(s, v, k - 1) == Down(s, u, k) && Down(w, v, k - 1) == Down(w, u, k);
      if v != NIL {
        NextKept(s, step, u);
        DownKept(s, step, v, k - 1);
      } else {
        assert Down(s, NIL, k - 1) == NIL == Down(w, NIL, k - 1);
      }
    }
  }

  lemma NextKept(s: State, step: Step, u: int)
    requires Inv(s) && Enabled(s, step) && 0 <= u < |s.tasks|
    requires s.tasks[u].frame.Frame? && s.tasks[u].frame.tmp != NIL && step != Resume(u)
    ensures var v := s.tasks[u].frame.tmp;
      0 <= v < |s.tasks| && s.tasks[v].waiting && s.tasks[v].frame.Frame? && Apply(s, step).tasks[v] == s.tasks[v]
  {
    var v := s.tasks[u].frame.tmp;
    assert FrameOk(s, u) && Points(s, u, v);
    match step
    case Sleep(t, q) =>
    case Resume(t) => assert FrameOk(s, t) && (s.tasks[t].frame.tmp != NIL ==> Points(s, t, s.tasks[t].frame.tmp));
    case WakeUp(q) => assert !Heads(s, q, v);
  }

  /** A released sleeper stays released; when the woken task it hangs from resumes, it is
      one place nearer, or runnable. No other step puts it further away. */
  lemma ReleasedStep(s: State, step: Step, r: int, t: int, k: nat)
    requires Inv(s) && Enabled(s, step) && Released(s, r, t, k)
    ensures var w := Apply(s, step);
      if step != Resume(r) then Released(w, r, t, k)
      else if k == 1 then !w.tasks[t].waiting
      else Released(w, s.tasks[r].frame.tmp, t, k - 1)
  {
    var w, v := Apply(s, step), s.tasks[r].frame.tmp;
    assert FrameOk(s, r);
    if step != Resume(r) {
      assert step.Resume? ==> FrameOk(s, step.t);
      DownKept(s, step, r, k);
    } else if k == 1 {
      assert Down(s, v, 0) == v;
    } else {
      assert Down(s, NIL, k - 1) == NIL;
      assert FrameOk(s, v);
      DownKept(s, step, v, k - 1);
    }
  }

  // ---- every run --------------------------------------------------------------------

  ghost predicate IsRun(s: State, steps: seq<Step>)
    decreases |steps|
  {
    steps == [] || (Enabled(s, steps[0]) && IsRun(Apply(s, steps[0]), steps[1..]))
  }

  ghost function After(s: State, steps: seq<Step>): State
    requires IsRun(s, steps)
    decreases |steps|
  {
    if steps == [] then s else After(Apply(s, steps[0]), steps[1..])
  }

  /** At some point of the run t can run. */
  ghost predicate Runs(s: State, steps: seq<Step>, t: nat)
    requires IsRun(s, steps)
    decreases |steps|
  {
    || (t < |s.tasks| && !s.tasks[t].waiting)
    || (steps != [] && Runs(Apply(s, steps[0]), steps[1..], t))
  }

  /** How often the process that a sleeper hangs from resumes in the run, first r, then the
      one r wakes, and so on. */
  ghost function Turns(s: State, steps: seq<Step>, r: int): nat
    requires IsRun(s, steps)
    decreases |steps|
  {
    if steps == [] then 0
    else if steps[0].Resume? && steps[0].t == r then 1 + Turns(Apply(s, steps[0]), steps[1..], s.tasks[r].frame.tmp)
    else Turns(Apply(s, steps[0]), steps[1..], r)
  }

  lemma {:induction false} RunKeeps(s: State, steps: seq<Step>)
    requires Inv(s) && IsRun(s, steps)
    ensures Inv(After(s, steps))
    decreases |steps|
  {
    if steps != [] {
      StepKeeps(s, steps[0]);
      RunKeeps(Apply(s, steps[0]), steps[1..]);
    }
  }

  /** Whatever else happens, a released sleeper can run after k turns; until then it is
      still on the chain of a woken task that has not had its turn. */
  lemma {:induction false} ReleasedRun(s: State, steps: seq<Step>, r: int, t: int, k: nat) returns (u: int, j: nat)
    requires Inv(s) && IsRun(s, steps) && Released(s, r, t, k)
    ensures Runs(s, steps, t) || (Released(After(s, steps), u, t, j) && j + Turns(s, steps, r) == k)
    decreases |steps|
  {
    u, j := r, k;
    if steps != [] {
      var w := Apply(s, steps[0]);
      StepKeeps(s, steps[0]);
      ReleasedStep(s, steps[0], r, t, k);
      if steps[0] != Resume(r) {
        u, j := ReleasedRun(w, steps[1..], r, t, k);
      } else if k > 1 {
        u, j := ReleasedRun(w, steps[1..], s.tasks[r].frame.tmp, t, k - 1);
      } else {
        assert Runs(w, steps[1..], t);
      }
    }
  }

  /** No wakeup is lost: a task asleep on q when wake_up(q) is called either gets to run in
      the run that follows, or some woken task has still not returned from its sleep_on. */
  lemma NoLostWakeup(s: State, q: nat, t: int, steps: seq<Step>)
    requires Inv(s) && SleepsOn(s, t, q) && q < |s.heads| && IsRun(Apply(s, WakeUp(q)), steps)
    ensures var w := Apply(s, WakeUp(q));
      Runs(w, steps, t) || exists u: nat, j: nat :: Released(After(w, steps), u, t, j)
  {
    var w := Apply(s, WakeUp(q));
    WakeUpKeeps(s, q);
    var r, k := WakeUpReleases(s, q, t);
    if w.tasks[t].waiting {
      var u, j := ReleasedRun(w, steps, r, t, k);
      assert Runs(w, steps, t) || Released(After(w, steps), u, t, j);
    }
  }

  /** So once all woken tasks have returned, everyone asleep at the wake_up has run. */
  lemma AllWakeUp(s: State, q: nat, t: int, steps: seq<Step>)
    requires Inv(s) && SleepsOn(s, t, q) && q < |s.heads| && IsRun(Apply(s, WakeUp(q)), steps)
    requires forall u: int {:trigger Woken(After(Apply(s, WakeUp(q)), steps), u)} :: !Woken(After(Apply(s, WakeUp(q)), steps), u)
    ensures Runs(Apply(s, WakeUp(q)), steps, t)
  {
    NoLostWakeup(s, q, t, steps);
  }

  /** And with no woken task outstanding, an empty queue has no sleepers. */
  lemma EmptyMeansNobody(s: State, q: nat, t: int)
    requires Inv(s) && q < |s.heads| && s.heads[q] == NIL
    requires forall u: int {:trigger Woken(s, u)} :: !Woken(s, u)
    ensures !SleepsOn(s, t, q)
  {
    if SleepsOn(s, t, q) {
      var r, k := Climb(s, q, t);
      assert Down(s, NIL, k) == NIL;
      assert false;
    }
  }

  // ---- the code's own form ------------------------------------------------------------

  /** The process table, the wait queue heads, and the `tmp` on each task's kernel stack. */
  class Scheduler {
    const state: array<bool>
    const heads: array<int>
    const frames: array<Frame>
    var clock: nat // bookkeeping for `since`

    ghost predicate Valid()
      reads this, state, heads, frames
    {
      state.Length == frames.Length && Inv(Abs())
    }

    ghost function Abs(): State
      reads this, state, heads, frames
      requires state.Length == frames.Length
    {
      State(heads[..], seq(state.Length, k requires 0 <= k < state.Length reads this, state, frames => Task(state[k], frames[k])), clock)
    }

    constructor (queues: nat, tasks: nat)
      ensures Valid() && fresh(state) && fresh(heads) && fresh(frames)
      ensures Abs() == State(seq(queues, _ => NIL), seq(tasks, _ => Task(false, NoFrame)), 0)
    {
      state := new bool[tasks](_ => false);
      heads := new int[queues](_ => NIL);
      frames := new Frame[tasks](_ => NoFrame);
      clock := 0;
      new;
      InitiallyInv(queues, tasks);
      assert Abs() == State(seq(queues, _ => NIL), seq(tasks, _ => Task(false, NoFrame)), 0);
    }

    /** sleep_on up to its call of schedule. */
    method SleepOn(current: nat, p: nat)
      requires Valid() && Enabled(Abs(), Sleep(current, p))
      modifies this, state, heads, frames
      ensures Valid() && Abs() == Apply(old(Abs()), Sleep(current, p))
      ensures heads[..] == old(heads[..])[p := current] && state[..] == old(state[..])[current := true]
      ensures frames[..] == old(frames[..])[current := Frame(p, old(heads[p]), old(clock))]
    {
      SleepKeeps(Abs(), current, p);
      var tmp := heads[p];
      heads[p] := current;
      state[current] := true;
      frames[current] := Frame(p, tmp, clock);
      clock := clock + 1;
      assert Abs() == Apply(old(Abs()), Sleep(current, p));
    }

    /** sleep_on from schedule's return on. The process it wakes is asleep on the same queue. */
    method ReturnFromSleep(current: nat)
      requires Valid() && Enabled(Abs(), Resume(current))
      modifies state, frames
      ensures Valid() && Abs() == Apply(old(Abs()), Resume(current))
      ensures var tmp := old(frames[current].tmp);
        && (0 <= tmp < state.Length || tmp == NIL) && frames[..] == old(frames[..])[current := NoFrame]
        && state[..] == if tmp != NIL then old(state[..])[tmp := false] else old(state[..])
      ensures old(frames[current].tmp) != NIL ==> old(SleepsOn(Abs(), frames[current].tmp, frames[current].queue))
    {
      ResumeKeeps(Abs(), current);
      assert FrameOk(Abs(), current);
      var tmp := frames[current].tmp;
      if tmp != NIL {
        state[tmp] := false;
      }
      frames[current] := NoFrame;
      assert Abs() == Apply(old(Abs()), Resume(current));
    }

    method WakeUp(p: nat)
      requires Valid() && p < heads.Length
      modifies state, heads
      ensures Valid() && Abs() == Apply(old(Abs()), Step.WakeUp(p))
      ensures var head := old(heads[p]);
        && (0 <= head < state.Length || head == NIL) && heads[..] == old(heads[..])[p := NIL]
        && state[..] == if head != NIL then old(state[..])[head := false] else old(state[..])
    {
      WakeUpKeeps(Abs(), p);
      if heads[p] != NIL {
        assert Heads(Abs(), p, heads[p]);
        state[heads[p]] := false;
        heads[p] := NIL;
      }
      assert Abs() == Apply(old(Abs()), Step.WakeUp(p));
    }
  }
}
