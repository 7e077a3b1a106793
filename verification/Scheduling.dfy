/** schedule, do_timer's accounting and sys_nice of kernel/sched.c: who runs next, and why a
    runnable task is never passed over forever. */
module Scheduling {

  const NR_TASKS: nat := 64
  const SIGKILL: nat := 9
  const SIGALRM: nat := 14
  const SIGSTOP: nat := 19

  datatype TaskState = Running | Interruptible | Uninterruptible | Zombie | Stopped

  datatype Task = Task(state: TaskState, counter: int, priority: int, alarm: int, signal: set<nat>, blocked: set<nat>)

  /** task[]: NULL or a task. */
  datatype Slot = Null | Some(task: Task)

  predicate Runnable(slot: Slot) {
    slot.Some? && slot.task.state == Running
  }

  // ---- schedule ---------------------------------------------------------------------

  /** The first loop, for one task: an alarm that is due, and waking for a signal that is
      not blocked (SIGKILL and SIGSTOP cannot be). */
  function Signalled(slot: Slot, jiffies: int): Slot {
    if slot.Null? then slot else
    var t := if slot.task.alarm != 0 && slot.task.alarm < jiffies
             then slot.task.(signal := slot.task.signal + {SIGALRM}, alarm := 0) else slot.task;
    Some(if t.signal - (t.blocked - {SIGKILL, SIGSTOP}) != {} && t.state == Interruptible
         then t.(state := Running) else t)
  }

  /** The scan for the largest counter, from task i - 1 down to task 1. */
  function Scan(tasks: seq<Slot>, i: nat, c: int, next: nat): (int, nat)
    requires i <= |tasks|
    decreases i
  {
    if i <= 1 then (c, next)
    else if Runnable(tasks[i - 1]) && tasks[i - 1].task.counter > c
    then Scan(tasks, i - 1, tasks[i - 1].task.counter, i - 1)
    else Scan(tasks, i - 1, c, next)
  }

  function Recharged(slot: Slot): Slot {
    if slot.Null? then slot
    else Some(slot.task.(counter := slot.task.counter / 2 + slot.task.priority))
  }

  /** f of every slot but task 0's. */
  function ButFirst(tasks: seq<Slot>, f: Slot -> Slot): (r: seq<Slot>)
    ensures |r| == |tasks|
    ensures forall i {:trigger r[i]} | 0 <= i < |tasks| :: r[i] == if i == 0 then tasks[0] else f(tasks[i])
  {
    seq(|tasks|, i requires 0 <= i < |tasks| => if i == 0 then tasks[0] else f(tasks[i]))
  }

  function Recharge(tasks: seq<Slot>): (r: seq<Slot>)
    ensures |r| == |tasks|
  {
    ButFirst(tasks, Recharged)
  }

  function SignalPass(tasks: seq<Slot>, jiffies: int): (r: seq<Slot>)
    ensures |r| == |tasks|
  {
    ButFirst(tasks, slot => Signalled(slot, jiffies))
  }

  /** What the while (1) loop comes to: the tasks, perhaps recharged, and the one to run. */
  function Choose(tasks: seq<Slot>): (r: (seq<Slot>, nat))
    ensures |r.0| == |tasks|
  {
    var (c, next) := Scan(tasks, |tasks|, -1, 0);
    if c != 0 then (tasks, next) else (Recharge(tasks), Scan(Recharge(tasks), |tasks|, -1, 0).1)
  }

  /** Counters are never negative nor priorities 0. */
  predicate TaskOk(slot: Slot) {
    slot.Some? ==> 0 <= slot.task.counter && 0 < slot.task.priority
  }

  predicate Bounded(slot: Slot) {
    slot.Some? ==> slot.task.counter <= 2 * slot.task.priority - 1
  }

  ghost predicate Ok(tasks: seq<Slot>) {
    |tasks| > 0 && forall i {:trigger TaskOk(tasks[i])} | 0 <= i < |tasks| :: TaskOk(tasks[i])
  }

  /** Task k is the scan's choice among those from i on: the largest counter, and of
      several the last. */
  ghost predicate Best(tasks: seq<Slot>, i: nat, c: int, next: nat) {
    if next == 0 then c == -1 && forall k {:trigger Runnable(tasks[k])} | i <= k < |tasks| && k > 0 :: !Runnable(tasks[k])
    else
      && i <= next < |tasks| && Runnable(tasks[next]) && tasks[next].task.counter == c
      && (forall k {:trigger Runnable(tasks[k])} | i <= k < |tasks| && k > 0 && Runnable(tasks[k]) :: tasks[k].task.counter <= c)
      && (forall k {:trigger Runnable(tasks[k])} | next < k < |tasks| && Runnable(tasks[k]) :: tasks[k].task.counter < c)
  }

  lemma {:induction false} ScanIsBest(tasks: seq<Slot>, i: nat, c: int, next: nat)
    requires Ok(tasks) && 0 < i <= |tasks| && Best(tasks, i, c, next)
    ensures var (d, n) := Scan(tasks, i, c, next); Best(tasks, 1, d, n)
    decreases i
  {
    if i > 1 {
      assert TaskOk(tasks[i - 1]);
      if Runnable(tasks[i - 1]) && tasks[i - 1].task.counter > c {
        ScanIsBest(tasks, i - 1, tasks[i - 1].task.counter, i - 1);
      } else {
        ScanIsBest(tasks, i - 1, c, next);
      }
    }
  }

  lemma RechargeKeeps(tasks: seq<Slot>)
    requires Ok(tasks)
    ensures Ok(Recharge(tasks))
    ensures forall i {:trigger tasks[i]} | 0 < i < |tasks| && tasks[i].Some? :: Recharge(tasks)[i].task.counter >= tasks[i].task.priority > 0
    ensures forall i {:trigger Bounded(tasks[i])} | 0 < i < |tasks| && Bounded(tasks[i]) :: Bounded(Recharge(tasks)[i])
  {
    var r := Recharge(tasks);
    forall i | 0 <= i < |tasks| ensures TaskOk(r[i]) {
      assert TaskOk(tasks[i]);
    }
    forall i | 0 < i < |tasks| && tasks[i].Some? ensures r[i].task.counter >= tasks[i].task.priority > 0 {
      assert TaskOk(tasks[i]);
    }
  }

  /** The choice: the runnable task with the most of its slice left, task 0 only when nothing
      else can run. Slices are recharged exactly when somebody can run and nobody who can
      has any of it left; and one recharge is enough. */
  lemma ChooseIsBest(tasks: seq<Slot>)
    requires Ok(tasks)
    ensures var (r, next) := Choose(tasks);
      && Ok(r) && (exists c :: Best(r, 1, c, next))
      && (next == 0 <==> forall k {:trigger Runnable(tasks[k])} | 0 < k < |tasks| :: !Runnable(tasks[k]))
      && (next != 0 ==> next < |tasks| && Runnable(r[next]) && r[next].task.counter > 0)
    ensures Scan(tasks, |tasks|, -1, 0).0 == 0 <==>
      && (exists k {:trigger Runnable(tasks[k])} :: 0 < k < |tasks| && Runnable(tasks[k]))
      && (forall k {:trigger Runnable(tasks[k])} | 0 < k < |tasks| && Runnable(tasks[k]) :: tasks[k].task.counter == 0)
  {
    var (c, next) := Scan(tasks, |tasks|, -1, 0);
    ScanIsBest(tasks, |tasks|, -1, 0);
    if c == 0 {
      var r := Recharge(tasks);
      RechargeKeeps(tasks);
      ScanIsBest(r, |r|, -1, 0);
      assert Runnable(tasks[next]) && Runnable(r[next]);
      forall k | 0 < k < |tasks| && Runnable(tasks[k]) ensures tasks[k].task.counter == 0 {
        assert TaskOk(tasks[k]);
      }
      assert Best(r, 1, Scan(r, |r|, -1, 0).0, Scan(r, |r|, -1, 0).1);
    } else {
      assert next != 0 ==> Runnable(tasks[next]) && TaskOk(tasks[next]);
      assert Best(tasks, 1, c, next);
    }
  }

  /** Recharging keeps a counter below twice its priority, and never restores that. */
  lemma RechargeBoundIff(slot: Slot)
    ensures Bounded(Recharged(slot)) <==> Bounded(slot)
  {
  }

  /** sys_nice. */
  function Niced(task: Task, increment: int): (t: Task)
    ensures task.priority > 0 ==> t.priority > 0
  {
    if task.priority - increment > 0 then task.(priority := task.priority - increment) else task
  }

  /** It can leave a counter above twice the new priority; then no recharge brings it below. */
  lemma NiceBreaksBound(t: Task)
    requires t.counter == 29 && t.priority == 15
    ensures Bounded(Some(t)) && !Bounded(Some(Niced(t, 10))) && !Bounded(Recharged(Some(Niced(t, 10))))
  {
    RechargeBoundIff(Some(Niced(t, 10)));
  }

  // ---- the system over time -----------------------------------------------------------

  datatype System = System(tasks: seq<Slot>, current: nat)

  /** What can happen: a clock tick in user or kernel mode; the current task blocking or
      calling schedule while runnable; a wake-up, a signal, fork into slot i, release; nice. */
  datatype Step =
    | Tick(user: bool, now: int)
    | Block(to: TaskState, now: int)
    | Yield(now: int)
    | Wake(i: nat)
    | Kill(i: nat, sig: nat)
    | Fork(i: nat)
    | Release(i: nat)
    | Nice(increment: int)

  ghost predicate SysOk(s: System) {
    Ok(s.tasks) && s.tasks[0].Some? && s.current < |s.tasks| && s.tasks[s.current].Some?
  }

  ghost predicate Enabled(s: System, step: Step)
    requires SysOk(s)
  {
    match step
    case Tick(_, _) => true
    case Block(to, _) => to != Running
    case Yield(_) => true
    case Wake(i) => i < |s.tasks| && s.tasks[i].Some? && s.tasks[i].task.state != Zombie
    case Kill(i, _) => i < |s.tasks| && s.tasks[i].Some?
    case Fork(i) => 0 < i < |s.tasks| && s.tasks[i].Null?
    case Release(i) => 0 < i < |s.tasks| && i != s.current && s.tasks[i].Some? && s.tasks[i].task.state == Zombie
    case Nice(_) => true
  }

  function Reschedule(tasks: seq<Slot>, now: int): System {
    var (r, next) := Choose(SignalPass(tasks, now));
    System(r, next)
  }

  // ---- what a call of schedule does to each task ---------------------------------------------

  /** A signal of u that can wake it: not blocked, or one that cannot be blocked. */
  predicate CanWake(signal: set<nat>, blocked: set<nat>, n: nat) {
    n in signal && (n !in blocked || n == 9 || n == 19)
  }

  /** An alarm that is due becomes SIGALRM; an interruptible sleeper with a signal that can wake
      it is made running; nothing else changes but the counter. */
  ghost predicate Passed(t: Task, u: Task, jiffies: int) {
    var due := t.alarm != 0 && t.alarm < jiffies;
    && u.signal == (if due then t.signal + {14} else t.signal) && u.alarm == (if due then 0 else t.alarm)
    && u.state == (if t.state == Interruptible && exists n: nat :: CanWake(u.signal, t.blocked, n) then Running else t.state)
    && u.priority == t.priority && u.blocked == t.blocked
  }

  ghost predicate SomebodyCan(tasks: seq<Slot>) {
    exists k: nat {:trigger tasks[k]} :: 0 < k < |tasks| && Runnable(tasks[k])
  }

  /** Somebody but task 0 can run, and nobody who can has any of his slice left. */
  ghost predicate SlicesUsedUp(before: seq<Slot>, after: seq<Slot>)
    requires |before| == |after|
  {
    SomebodyCan(after) && forall k: nat {:trigger before[k]} | 0 < k < |after| && Runnable(after[k]) :: before[k].Some? && before[k].task.counter == 0
  }

  /** From `before`, schedule leaves `after` with task `next` current. */
  ghost predicate Scheduled(before: seq<Slot>, after: seq<Slot>, next: nat, jiffies: int) {
    && |after| == |before| > 0 && after[0] == before[0]
    && (forall k: nat {:trigger after[k]} | 0 < k < |before| :: after[k].Some? == before[k].Some? && (before[k].Some? ==>
          && Passed(before[k].task, after[k].task, jiffies)
          && var c := before[k].task.counter;
             after[k].task.counter == if SlicesUsedUp(before, after) then c / 2 + before[k].task.priority else c))
    && (next == 0 <==> !SomebodyCan(after))
    && (next != 0 ==> next < |after| && Runnable(after[next]) && forall k: nat {:trigger after[k]} | 0 < k < |after| && Runnable(after[k]) ::
          after[k].task.counter < after[next].task.counter || (after[k].task.counter == after[next].task.counter && k <= next))
  }

  lemma PassIs(slot: Slot, jiffies: int)
    requires slot.Some?
    ensures Signalled(slot, jiffies).Some? && Passed(slot.task, Signalled(slot, jiffies).task, jiffies)
    ensures Signalled(slot, jiffies).task.counter == slot.task.counter
  {
    var u := Signalled(slot, jiffies).task;
    var wake := u.signal - (slot.task.blocked - {SIGKILL, SIGSTOP});
    if wake != {} {
      var n :| n in wake;
      assert CanWake(u.signal, slot.task.blocked, n);
    }
    if n: nat :| CanWake(u.signal, slot.task.blocked, n) {
      assert n in wake;
    }
  }

  lemma RescheduleIs(tasks: seq<Slot>, now: int)
    requires Ok(tasks)
    ensures var r := Reschedule(tasks, now); Scheduled(tasks, r.tasks, r.current, now)
  {
    var t, r := SignalPass(tasks, now), Reschedule(tasks, now);
    SignalPassKeeps(tasks, now);
    ChooseIsBest(t);
    forall k: nat | 0 < k < |tasks| && tasks[k].Some? ensures Passed(tasks[k].task, t[k].task, now) && t[k].task.counter == tasks[k].task.counter {
      PassIs(tasks[k], now);
    }
    RunnableSame(t, r.tasks);
    forall k: nat | 0 < k < |tasks| ensures t[k].Some? == tasks[k].Some? && (tasks[k].Some? ==> t[k].task.counter == tasks[k].task.counter) {
    }
    UsedUpIff(tasks, t, r.tasks);
    var c :| Best(r.tasks, 1, c, r.current);
  }

  lemma RunnableSame(t: seq<Slot>, r: seq<Slot>)
    requires r == t || r == Recharge(t)
    ensures |r| == |t| && forall k: nat {:trigger r[k]} | k < |t| :: Runnable(r[k]) == Runnable(t[k])
  {
  }

  lemma UsedUpIff(tasks: seq<Slot>, t: seq<Slot>, r: seq<Slot>)
    requires Ok(t) && |tasks| == |t| == |r| && r == Choose(t).0
    requires forall k: nat {:trigger t[k]} | 0 < k < |t| :: t[k].Some? == tasks[k].Some? && (t[k].Some? ==> t[k].task.counter == tasks[k].task.counter)
    requires forall k: nat {:trigger r[k]} | k < |t| :: Runnable(r[k]) == Runnable(t[k])
    ensures SlicesUsedUp(tasks, r) <==> Scan(t, |t|, -1, 0).0 == 0
  {
    ChooseIsBest(t);
    if SlicesUsedUp(tasks, r) {
      var k: nat :| 0 < k < |r| && Runnable(r[k]);
      assert Runnable(t[k]);
      forall j | 0 < j < |t| && Runnable(t[j]) ensures t[j].task.counter == 0 {
        assert Runnable(r[j]) && tasks[j].Some?;
      }
    }
    if Scan(t, |t|, -1, 0).0 == 0 {
      var k: int :| 0 < k < |t| && Runnable(t[k]);
      assert Runnable(r[k]);
    }
  }

  /** A signal that can wake it ends a pause at the next call of schedule. */
  lemma SignalEndsPause(s: System, k: nat, sig: nat, now: int)
    requires SysOk(s) && 0 < k < |s.tasks| && s.tasks[k].Some? && s.tasks[k].task.state == Interruptible
    requires sig !in s.tasks[k].task.blocked || sig == SIGKILL || sig == SIGSTOP
    ensures var t := Apply(s, Kill(k, sig)); SysOk(t) && Runnable(Reschedule(t.tasks, now).tasks[k])
  {
    var t := Apply(s, Kill(k, sig));
    StepKeeps(s, Kill(k, sig));
    RescheduleIs(t.tasks, now);
    var r := Reschedule(t.tasks, now).tasks;
    assert Passed(t.tasks[k].task, r[k].task, now);
    assert CanWake(r[k].task.signal, t.tasks[k].task.blocked, sig);
  }

  /** And so does an alarm that is due, unless SIGALRM is blocked. */
  lemma AlarmEndsPause(tasks: seq<Slot>, k: nat, now: int)
    requires Ok(tasks) && 0 < k < |tasks| && tasks[k].Some? && tasks[k].task.state == Interruptible
    requires 0 != tasks[k].task.alarm < now && SIGALRM !in tasks[k].task.blocked
    ensures Runnable(Reschedule(tasks, now).tasks[k])
  {
    RescheduleIs(tasks, now);
    var r := Reschedule(tasks, now).tasks;
    assert Passed(tasks[k].task, r[k].task, now);
    assert CanWake(r[k].task.signal, tasks[k].task.blocked, SIGALRM);
  }

  function Put(s: System, i: nat, slot: Slot): System
    requires i < |s.tasks|
  {
    s.(tasks := s.tasks[i := slot])
  }

  /** do_timer's accounting: the current task pays for the tick. */
  function Charged(t: Task): Task {
    t.(counter := if t.counter - 1 > 0 then t.counter - 1 else 0)
  }

  function TimerTick(s: System, user: bool, now: int): System
    requires s.current < |s.tasks| && s.tasks[s.current].Some?
  {
    var t := Charged(s.tasks[s.current].task);
    var r := Put(s, s.current, Some(t));
    if t.counter > 0 || !user then r else Reschedule(r.tasks, now)
  }

  function Child(t: Task): Task {
    t.(state := Running, counter := t.priority, alarm := 0, signal := {})
  }

  ghost function Apply(s: System, step: Step): System
    requires SysOk(s) && Enabled(s, step)
  {
    match step
    case Tick(user, now) => TimerTick(s, user, now)
    case Block(to, now) => Reschedule(Put(s, s.current, Some(s.tasks[s.current].task.(state := to))).tasks, now)
    case Yield(now) => Reschedule(s.tasks, now)
    case Wake(i) => Put(s, i, Some(s.tasks[i].task.(state := Running)))
    case Kill(i, sig) => Put(s, i, Some(s.tasks[i].task.(signal := s.tasks[i].task.signal + {sig})))
    case Fork(i) => Put(s, i, Some(Child(s.tasks[s.current].task)))
    case Release(i) => Put(s, i, Null)
    case Nice(increment) => Put(s, s.current, Some(Niced(s.tasks[s.current].task, increment)))
  }

  lemma SignalPassKeeps(tasks: seq<Slot>, now: int)
    requires Ok(tasks)
    ensures Ok(SignalPass(tasks, now))
  {
    var r := SignalPass(tasks, now);
    forall i | 0 <= i < |tasks| ensures TaskOk(r[i]) {
      assert TaskOk(tasks[i]);
    }
  }

  lemma RescheduleKeeps(tasks: seq<Slot>, now: int)
    requires Ok(tasks) && tasks[0].Some?
    ensures SysOk(Reschedule(tasks, now))
  {
    SignalPassKeeps(tasks, now);
    ChooseIsBest(SignalPass(tasks, now));
  }

  lemma PutKeeps(s: System, i: nat, slot: Slot)
    requires SysOk(s) && i < |s.tasks| && TaskOk(slot)
    requires slot.Null? ==> i != 0 && i != s.current
    ensures SysOk(Put(s, i, slot))
  {
    var r := Put(s, i, slot);
    forall k | 0 <= k < |r.tasks| ensures TaskOk(r.tasks[k]) {
      assert TaskOk(s.tasks[k]);
    }
  }

  lemma StepKeeps(s: System, step: Step)
    requires SysOk(s) && Enabled(s, step)
    ensures SysOk(Apply(s, step))
  {
    assert TaskOk(s.tasks[s.current]);
    match step
    case Tick(user, now) =>
      var r := Some(Charged(s.tasks[s.current].task));
      PutKeeps(s, s.current, r);
      RescheduleKeeps(Put(s, s.current, r).tasks, now);
    case Block(to, now) =>
      var r := Some(s.tasks[s.current].task.(state := to));
      PutKeeps(s, s.current, r);
      RescheduleKeeps(Put(s, s.current, r).tasks, now);
    case Yield(now) => RescheduleKeeps(s.tasks, now);
    case Wake(i) => assert TaskOk(s.tasks[i]); PutKeeps(s, i, Some(s.tasks[i].task.(state := Running)));
    case Kill(i, sig) =>
      assert TaskOk(s.tasks[i]);
      PutKeeps(s, i, Some(s.tasks[i].task.(signal := s.tasks[i].task.signal + {sig})));
    case Fork(i) => PutKeeps(s, i, Some(Child(s.tasks[s.current].task)));
    case Release(i) => PutKeeps(s, i, Null);
    case Nice(increment) => PutKeeps(s, s.current, Some(Niced(s.tasks[s.current].task, increment)));
  }

  // ---- progress -------------------------------------------------------------------------

  function Slice(slot: Slot): nat {
    if slot.Some? && slot.task.counter > 0 then slot.task.counter else 0
  }

  /** The most a recharge adds to a slice. */
  function Gain(slot: Slot): nat {
    if slot.Some? && slot.task.priority > 0 then slot.task.priority else 0
  }

  function Sum(tasks: seq<Slot>, f: Slot -> nat): nat {
    if tasks == [] then 0 else f(tasks[0]) + Sum(tasks[1..], f)
  }

  lemma {:induction false} SumPut(tasks: seq<Slot>, i: nat, slot: Slot, f: Slot -> nat)
    requires i < |tasks|
    ensures Sum(tasks[i := slot], f) == Sum(tasks, f) - f(tasks[i]) + f(slot)
    decreases i
  {
    if i > 0 {
      assert tasks[i := slot][1..] == tasks[1..][i - 1 := slot];
      SumPut(tasks[1..], i - 1, slot, f);
    } else {
      assert tasks[i := slot][1..] == tasks[1..];
    }
  }

  lemma {:induction false} SumLess(a: seq<Slot>, b: seq<Slot>, f: Slot -> nat, g: Slot -> nat)
    requires |a| == |b| && forall i {:trigger a[i]} {:trigger b[i]} | 0 <= i < |a| :: f(a[i]) <= g(b[i])
    ensures Sum(a, f) <= Sum(b, g)
    decreases |a|
  {
    if a != [] {
      SumLess(a[1..], b[1..], f, g);
    }
  }

  /** Bounds the user-mode ticks until task j runs: twice what is left of all slices; one
      more if the current task has used up its own; and, if j has, what one recharge can add. */
  function Potential(s: System, j: nat): nat
    requires s.current < |s.tasks| && 0 < j < |s.tasks|
  {
    2 * Sum(s.tasks, Slice) + (if Slice(s.tasks[s.current]) == 0 then 1 else 0)
    + if Slice(s.tasks[j]) == 0 then 2 * Sum(s.tasks[1..], Gain) + 1 else 0
  }

  /** j can run but does not. */
  predicate Waiting(s: System, j: nat) {
    0 < j < |s.tasks| && Runnable(s.tasks[j]) && s.current != j
  }

  lemma SignalPassSums(tasks: seq<Slot>, now: int)
    requires tasks != []
    ensures var r := SignalPass(tasks, now);
      Sum(r, Slice) == Sum(tasks, Slice) && Sum(r[1..], Gain) == Sum(tasks[1..], Gain)
  {
    var r := SignalPass(tasks, now);
    assert forall i {:trigger r[i]} | 0 <= i < |r| :: Slice(r[i]) == Slice(tasks[i]) && Gain(r[i]) == Gain(tasks[i]);
    SumLess(r, tasks, Slice, Slice);
    SumLess(tasks, r, Slice, Slice);
    SumLess(r[1..], tasks[1..], Gain, Gain);
    SumLess(tasks[1..], r[1..], Gain, Gain);
  }

  lemma {:induction false} RechargedSum(a: seq<Slot>, r: seq<Slot>)
    requires |r| == |a|
    requires forall i {:trigger r[i]} | 0 <= i < |a| :: r[i] == Recharged(a[i]) && TaskOk(a[i])
    ensures Sum(r, Slice) <= Sum(a, Slice) + Sum(a, Gain)
    decreases |a|
  {
    if a != [] {
      assert r[0] == Recharged(a[0]);
      forall i | 0 <= i < |a[1..]| ensures r[1..][i] == Recharged(a[1..][i]) && TaskOk(a[1..][i]) {
        assert r[1..][i] == r[i + 1];
      }
      RechargedSum(a[1..], r[1..]);
    }
  }

  lemma RechargeSum(tasks: seq<Slot>)
    requires Ok(tasks)
    ensures Sum(Recharge(tasks), Slice) <= Sum(tasks, Slice) + Sum(tasks[1..], Gain)
  {
    var r := Recharge(tasks);
    forall i | 0 <= i < |r[1..]| ensures r[1..][i] == Recharged(tasks[1..][i]) && TaskOk(tasks[1..][i]) {
      assert r[1..][i] == r[i + 1] && TaskOk(tasks[i + 1]);
    }
    RechargedSum(tasks[1..], r[1..]);
  }

  /** schedule runs j, or lowers the bound if its caller had no slice left. */
  lemma RescheduleFalls(s: System, now: int, j: nat)
    requires SysOk(s) && 0 < j < |s.tasks| && Runnable(s.tasks[j])
    ensures var r := Reschedule(s.tasks, now);
      && SysOk(r)
      && (r.current == j || (Waiting(r, j) && Potential(r, j) + (if Slice(s.tasks[s.current]) == 0 then 1 else 0) <= Potential(s, j)))
  {
    var t := SignalPass(s.tasks, now);
    var r := Reschedule(s.tasks, now);
    SignalPassKeeps(s.tasks, now);
    SignalPassSums(s.tasks, now);
    RescheduleKeeps(s.tasks, now);
    ChooseIsBest(t);
    assert Runnable(t[j]) && TaskOk(t[j]) && Slice(t[j]) == Slice(s.tasks[j]);
    if Scan(t, |t|, -1, 0).0 == 0 {
      RechargeSum(t);
      RechargeKeeps(t);
      assert t[j].Some?;
    }
  }

  /** Changing one slot other than j's. */
  lemma PutChanges(s: System, i: nat, slot: Slot)
    requires SysOk(s) && i < |s.tasks|
    ensures var r := Put(s, i, slot);
      && Sum(r.tasks, Slice) == Sum(s.tasks, Slice) - Slice(s.tasks[i]) + Slice(slot)
      && Sum(r.tasks[1..], Gain) == Sum(s.tasks[1..], Gain) + if i == 0 then 0 else Gain(slot) - Gain(s.tasks[i])
  {
    SumPut(s.tasks, i, slot, Slice);
    if i == 0 {
      assert s.tasks[i := slot][1..] == s.tasks[1..];
    } else {
      assert s.tasks[i := slot][1..] == s.tasks[1..][i - 1 := slot];
      SumPut(s.tasks[1..], i - 1, slot, Gain);
    }
  }

  /** From s to r, j has run or its bound has fallen by `fall`, but for what was added. */
  ghost predicate Falls(s: System, r: System, j: nat, fall: nat, added: nat)
    requires SysOk(s) && Waiting(s, j)
  {
    r.current == j || (r.current < |r.tasks| && Waiting(r, j) && Potential(r, j) + fall <= Potential(s, j) + added)
  }

  /** A change of slot i that keeps the current task's slice, and j runnable with its own. */
  lemma PutFalls(s: System, i: nat, slot: Slot, j: nat, added: nat)
    requires SysOk(s) && Waiting(s, j) && i < |s.tasks|
    requires Slice(slot) <= Slice(s.tasks[i]) + added && Gain(slot) <= Gain(s.tasks[i]) + added
    requires i == s.current || i == j ==> Slice(slot) == Slice(s.tasks[i])
    requires i == j ==> Runnable(slot)
    ensures Falls(s, Put(s, i, slot), j, 0, 4 * added)
  {
    PutChanges(s, i, slot);
  }

  /** What a fork can add, the child's slices, and a nice that asks for more. */
  function Added(s: System, step: Step): nat
    requires s.current < |s.tasks|
  {
    if step.Fork? then 4 * Gain(s.tasks[s.current])
    else if step.Nice? && step.increment < 0 then 4 * -step.increment
    else 0
  }

  function UserTick(step: Step): nat {
    if step.Tick? && step.user then 1 else 0
  }

  lemma TickFalls(s: System, user: bool, now: int, j: nat)
    requires SysOk(s) && Waiting(s, j)
    ensures Falls(s, TimerTick(s, user, now), j, if user then 1 else 0, 0)
  {
    var slot := Some(Charged(s.tasks[s.current].task));
    var r := Put(s, s.current, slot);
    assert TaskOk(s.tasks[s.current]);
    PutKeeps(s, s.current, slot);
    PutChanges(s, s.current, slot);
    assert Slice(r.tasks[j]) == Slice(s.tasks[j]) && Gain(slot) == Gain(s.tasks[s.current]);
    if slot.task.counter <= 0 && user {
      RescheduleFalls(r, now, j);
    }
  }

  lemma BlockFalls(s: System, to: TaskState, now: int, j: nat)
    requires SysOk(s) && Waiting(s, j)
    ensures Falls(s, Apply(s, Yield(now)), j, 0, 0)
    ensures to != Running ==> Falls(s, Apply(s, Block(to, now)), j, 0, 0)
  {
    var slot := Some(s.tasks[s.current].task.(state := to));
    assert TaskOk(s.tasks[s.current]);
    PutKeeps(s, s.current, slot);
    PutFalls(s, s.current, slot, j, 0);
    RescheduleFalls(Put(s, s.current, slot), now, j);
    RescheduleFalls(s, now, j);
  }

  /** While j waits, no step raises the bound, forks and negative nices aside, and every user-mode tick lowers it. */
  lemma StepFalls(s: System, step: Step, j: nat)
    requires SysOk(s) && Enabled(s, step) && Waiting(s, j)
    ensures Falls(s, Apply(s, step), j, UserTick(step), Added(s, step))
  {
    match step
    case Tick(user, now) => TickFalls(s, user, now, j);
    case Block(to, now) => BlockFalls(s, to, now, j);
    case Yield(now) => BlockFalls(s, Stopped, now, j);
    case Wake(i) => PutFalls(s, i, Some(s.tasks[i].task.(state := Running)), j, 0);
    case Kill(i, sig) => PutFalls(s, i, Some(s.tasks[i].task.(signal := s.tasks[i].task.signal + {sig})), j, 0);
    case Fork(i) =>
      assert TaskOk(s.tasks[s.current]);
      PutFalls(s, i, Some(Child(s.tasks[s.current].task)), j, s.tasks[s.current].task.priority);
    case Release(i) => PutFalls(s, i, Null, j, 0);
    case Nice(increment) =>
      assert TaskOk(s.tasks[s.current]);
      PutFalls(s, s.current, Some(Niced(s.tasks[s.current].task, increment)), j, if increment < 0 then -increment else 0);
  }

  // ---- every run --------------------------------------------------------------------

  ghost predicate IsRun(s: System, steps: seq<Step>)
    requires SysOk(s)
    decreases |steps|
  {
    steps == [] || (Enabled(s, steps[0]) && (StepKeeps(s, steps[0]); IsRun(Apply(s, steps[0]), steps[1..])))
  }

  /** j is the current task at some point of the run. */
  ghost predicate Runs(s: System, steps: seq<Step>, j: nat)
    requires SysOk(s) && IsRun(s, steps)
    decreases |steps|
  {
    s.current == j || (steps != [] && (StepKeeps(s, steps[0]); Runs(Apply(s, steps[0]), steps[1..], j)))
  }

  function UserTicks(steps: seq<Step>): nat {
    if steps == [] then 0 else UserTick(steps[0]) + UserTicks(steps[1..])
  }

  /** What the forks and nices of the run can add. */
  ghost function AllAdded(s: System, steps: seq<Step>): nat
    requires SysOk(s) && IsRun(s, steps)
    decreases |steps|
  {
    if steps == [] then 0 else StepKeeps(s, steps[0]); Added(s, steps[0]) + AllAdded(Apply(s, steps[0]), steps[1..])
  }

  /** No starvation: whatever the other tasks do, a task that can run does so within as many
      user-mode ticks as the potential says. */
  lemma {:induction false} NoStarvation(s: System, steps: seq<Step>, j: nat)
    requires SysOk(s) && IsRun(s, steps) && Waiting(s, j)
    requires UserTicks(steps) > Potential(s, j) + AllAdded(s, steps)
    ensures Runs(s, steps, j)
    decreases |steps|
  {
    var r := Apply(s, steps[0]);
    StepKeeps(s, steps[0]);
    StepFalls(s, steps[0], j);
    if r.current != j {
      NoStarvation(r, steps[1..], j);
    } else {
      assert Runs(r, steps[1..], j);
    }
  }

  // ---- the code's own form ------------------------------------------------------------

  class Cpu {
    const task: array<Slot>
    var current: nat

    ghost predicate Valid()
      reads this, task
    {
      task.Length == NR_TASKS && SysOk(Abs())
    }

    ghost function Abs(): System
      reads this, task
    {
      System(task[..], current)
    }

    /** sched_init: task 0 alone, with the 15 and 15 of INIT_TASK. */
    constructor ()
      ensures Valid() && fresh(task)
      ensures current == 0 && forall i | 0 <= i < NR_TASKS :: task[i] == if i == 0 then Some(Task(Running, 15, 15, 0, {}, {})) else Null
    {
      task := new Slot[NR_TASKS](i => if i == 0 then Some(Task(Running, 15, 15, 0, {}, {})) else Null);
      current := 0;
    }

    method Schedule(jiffies: int)
      requires Valid()
      modifies this, task
      ensures Valid() && Abs() == Reschedule(old(task[..]), jiffies)
      ensures Scheduled(old(task[..]), task[..], current, jiffies)
    {
      RescheduleIs(task[..], jiffies);
      RescheduleKeeps(task[..], jiffies);
      SignalPassKeeps(task[..], jiffies);
      CheckSignals(jiffies);
      ghost var t := task[..];
      ChooseIsBest(t);
      var c, next := PickNext();
      while c == 0
        invariant c == Scan(task[..], NR_TASKS, -1, 0).0 && next == Scan(task[..], NR_TASKS, -1, 0).1
        invariant c == 0 ==> task[..] == t
        invariant c != 0 ==> (task[..], next) == Choose(t)
        decreases if c == 0 then 1 else 0
      {
        RechargeAll();
        OneRechargeIsEnough(t);
        c, next := PickNext();
      }
      current := next;
    }

    method CheckSignals(jiffies: int)
      requires task.Length == NR_TASKS
      modifies task
      ensures task[..] == SignalPass(old(task[..]), jiffies)
    {
      var p := NR_TASKS - 1;
      while p > 0
        invariant 0 <= p < NR_TASKS
        invariant forall i | 0 <= i < NR_TASKS :: task[i] == if i > p then Signalled(old(task[i]), jiffies) else old(task[i])
      {
        if task[p].Some? {
          if task[p].task.alarm != 0 && task[p].task.alarm < jiffies {
            task[p] := Some(task[p].task.(signal := task[p].task.signal + {SIGALRM}));
            task[p] := Some(task[p].task.(alarm := 0));
          }
          if task[p].task.signal - (task[p].task.blocked - {SIGKILL, SIGSTOP}) != {} && task[p].task.state == Interruptible {
            task[p] := Some(task[p].task.(state := Running));
          }
        }
        p := p - 1;
      }
      assert task[..] == SignalPass(old(task[..]), jiffies);
    }

    method PickNext() returns (c: int, next: nat)
      requires task.Length == NR_TASKS
      ensures c == Scan(task[..], NR_TASKS, -1, 0).0 && next == Scan(task[..], NR_TASKS, -1, 0).1
    {
      c, next := -1, 0;
      var i: nat := NR_TASKS - 1;
      while i > 0
        invariant 0 <= i < NR_TASKS && Scan(task[..], NR_TASKS, -1, 0) == Scan(task[..], i + 1, c, next)
      {
        if Runnable(task[i]) && task[i].task.counter > c {
          c, next := task[i].task.counter, i;
        }
        i := i - 1;
      }
    }

    method RechargeAll()
      requires task.Length == NR_TASKS
      modifies task
      ensures task[..] == Recharge(old(task[..]))
    {
      var p := NR_TASKS - 1;
      while p > 0
        invariant 0 <= p < NR_TASKS
        invariant forall i | 0 <= i < NR_TASKS :: task[i] == if i > p then Recharged(old(task[i])) else old(task[i])
      {
        if task[p].Some? {
          task[p] := Some(task[p].task.(counter := task[p].task.counter / 2 + task[p].task.priority));
        }
        p := p - 1;
      }
      assert task[..] == Recharge(old(task[..]));
    }

    /** do_timer's accounting; cpl is 0 in kernel mode. */
    method DoTimer(cpl: nat, jiffies: int)
      requires Valid()
      modifies this, task
      ensures Valid() && Abs() == TimerTick(old(Abs()), cpl != 0, jiffies)
      ensures var t := old(task[current].task);
        if cpl == 0 || t.counter > 1 then
          && current == old(current)
          && task[..] == old(task[..])[old(current) := Some(t.(counter := if t.counter > 1 then t.counter - 1 else 0))]
        else Scheduled(old(task[..])[old(current) := Some(t.(counter := 0))], task[..], current, jiffies)
    {
      StepKeeps(Abs(), Tick(cpl != 0, jiffies));
      assert TaskOk(task[..][current]);
      PutKeeps(Abs(), current, Some(Charged(task[current].task)));
      task[current] := Some(task[current].task.(counter := task[current].task.counter - 1));
      if task[current].task.counter > 0 {
        assert Abs() == Put(old(Abs()), current, Some(Charged(old(task[current].task))));
        return;
      }
      task[current] := Some(task[current].task.(counter := 0));
      assert Abs() == Put(old(Abs()), current, Some(Charged(old(task[current].task))));
      if cpl == 0 {
        return;
      }
      Schedule(jiffies);
    }

    /** sys_nice: the caller's slice stays below twice its priority exactly when it fits the new one. */
    method SysNice(increment: int)
      requires Valid()
      modifies task
      ensures Valid() && Abs() == Apply(old(Abs()), Nice(increment))
      ensures var t := old(task[current].task); task[..] == old(task[..])[current :=
        Some(t.(priority := if increment < t.priority then t.priority - increment else t.priority))]
      ensures Bounded(task[current]) <==> old(task[current].task.counter) <= 2 * Niced(old(task[current].task), increment).priority - 1
    {
      StepKeeps(Abs(), Nice(increment));
      ghost var s := Abs();
      if task[current].task.priority - increment > 0 {
        task[current] := Some(task[current].task.(priority := task[current].task.priority - increment));
      }
      assert task[..] == s.tasks[current := Some(Niced(s.tasks[current].task, increment))];
    }
  }

  lemma OneRechargeIsEnough(tasks: seq<Slot>)
    requires Ok(tasks) && Scan(tasks, |tasks|, -1, 0).0 == 0
    ensures Scan(Recharge(tasks), |tasks|, -1, 0).0 > 0
  {
    var r := Recharge(tasks);
    ScanIsBest(tasks, |tasks|, -1, 0);
    RechargeKeeps(tasks);
    ScanIsBest(r, |r|, -1, 0);
    var n := Scan(tasks, |tasks|, -1, 0).1;
    assert Runnable(tasks[n]) && Runnable(r[n]);
  }
}
