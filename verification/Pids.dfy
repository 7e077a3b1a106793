/** find_empty_process of kernel/fork.c: the next process number nobody has, and a free slot.
    The search is a `goto repeat`; it ends because there are more numbers than tasks. */
module Pids {

  const NR_TASKS: nat := 64
  const MAX_PID: int := 0x7fff_ffff
  const EAGAIN: int := 11
  /** No task in the slot. */
  const NULL: int := -1

  /** ++last_pid, which overflows into the negative and is then set to 1. */
  function Next(p: int): int {
    if p == MAX_PID then 1 else p + 1
  }

  /** The k-th number tried from p on. */
  function Nth(p: int, k: nat): int {
    if p + k <= MAX_PID then p + k else p + k - MAX_PID
  }

  ghost predicate InUse(task: seq<int>, pid: int) {
    exists i :: 0 <= i < |task| && task[i] == pid
  }

  ghost function Pids(task: seq<int>): set<int> {
    set i {:trigger task[i]} | 0 <= i < |task| :: task[i]
  }

  lemma {:induction false} PidsCard(task: seq<int>)
    ensures |Pids(task)| <= |task|
    decreases |task|
  {
    if task == [] {
      assert Pids(task) == {};
    } else {
      var n := |task| - 1;
      PidsCard(task[..n]);
      assert Pids(task) == Pids(task[..n]) + {task[n]} by {
        assert forall i | 0 <= i < n :: task[i] == task[..n][i];
      }
    }
  }

  /** The first k numbers tried. */
  ghost function Tried(p: int, k: nat): set<int> {
    set i | 1 <= i <= k :: Nth(p, i)
  }

  lemma {:induction false} TriedCard(p: int, k: nat)
    requires 0 <= p <= MAX_PID && k <= NR_TASKS + 1
    ensures |Tried(p, k)| == k
    decreases k
  {
    if k > 0 {
      TriedCard(p, k - 1);
      assert Nth(p, k) !in Tried(p, k - 1);
      assert Tried(p, k) == Tried(p, k - 1) + {Nth(p, k)};
    } else {
      assert Tried(p, k) == {};
    }
  }

  lemma SubsetCard(a: set<int>, b: set<int>)
    requires a <= b
    ensures |a| <= |b|
  {
    assert b == a + (b - a);
  }

  /** No more numbers in a row can be taken than there are tasks. */
  lemma Pigeonhole(task: seq<int>, p: int, k: nat)
    requires 0 <= p <= MAX_PID && |task| <= NR_TASKS && k <= NR_TASKS + 1
    requires forall i {:trigger Nth(p, i)} | 1 <= i <= k :: InUse(task, Nth(p, i))
    ensures k <= |task|
  {
    TriedCard(p, k);
    PidsCard(task);
    forall x | x in Tried(p, k) ensures x in Pids(task) {
      var i :| 1 <= i <= k && x == Nth(p, i);
      assert InUse(task, Nth(p, i));
      var j :| 0 <= j < |task| && task[j] == x;
    }
    SubsetCard(Tried(p, k), Pids(task));
  }

  /** pid is the k-th number tried from p on, and those before it were taken. */
  ghost predicate FirstFree(task: seq<int>, p: int, k: nat, pid: int) {
    && 1 <= k <= NR_TASKS + 1 && pid == Nth(p, k) && !InUse(task, pid)
    && forall i {:trigger Nth(p, i)} | 1 <= i < k :: InUse(task, Nth(p, i))
  }

  class ProcessTable {
    /** task[i]->pid, or NULL. */
    const task: array<int>
    var lastPid: int

    ghost predicate Valid()
      reads this
    {
      task.Length == NR_TASKS && 0 <= lastPid <= MAX_PID
    }

    constructor ()
      ensures Valid() && fresh(task) && lastPid == 0 && task[..] == [0] + seq(NR_TASKS - 1, _ => NULL)
    {
      task := new int[NR_TASKS](i => if i == 0 then 0 else NULL);
      lastPid := 0;
      new;
      assert task[..] == [0] + seq(NR_TASKS - 1, _ => NULL);
    }

    method Taken(pid: int) returns (b: bool)
      requires Valid() && pid > 0
      ensures b <==> InUse(task[..], pid)
    {
      var i := 0;
      while i < NR_TASKS
        invariant 0 <= i <= NR_TASKS && forall j | 0 <= j < i :: task[j] != pid
      {
        if task[i] != NULL && task[i] == pid {
          assert task[..][i] == pid;
          return true;
        }
        i := i + 1;
      }
      b := false;
    }

    /** The first number after last_pid that no task has, and the lowest free slot but 0. */
    method FindEmptyProcess() returns (nr: int)
      requires Valid()
      modifies this`lastPid
      ensures Valid() && 0 < lastPid && !InUse(task[..], lastPid)
      ensures exists k: nat :: FirstFree(task[..], old(lastPid), k, lastPid)
      ensures if nr > 0 then nr < NR_TASKS && task[nr] == NULL && forall i | 0 < i < nr :: task[i] != NULL
              else nr == -EAGAIN && forall i | 0 < i < NR_TASKS :: task[i] != NULL
    {
      ghost var p, k := lastPid, 1;
      lastPid := Next(lastPid);
      var taken := Taken(lastPid);
      while taken
        invariant Valid() && 0 < lastPid == Nth(p, k) && 1 <= k <= NR_TASKS + 1
        invariant taken <==> InUse(task[..], lastPid)
        invariant forall i {:trigger Nth(p, i)} | 1 <= i < k :: InUse(task[..], Nth(p, i))
        decreases NR_TASKS + 1 - k
      {
        Pigeonhole(task[..], p, k);
        lastPid := Next(lastPid);
        k := k + 1;
        taken := Taken(lastPid);
      }
      assert FirstFree(task[..], p, k, lastPid);
      nr := 1;
      while nr < NR_TASKS
        invariant 1 <= nr <= NR_TASKS && forall i | 0 < i < nr :: task[i] != NULL
      {
        if task[nr] == NULL {
          return;
        }
        nr := nr + 1;
      }
      nr := -EAGAIN;
    }
  }

  /** A task given that number in that slot leaves all process numbers distinct. */
  lemma StillDistinct(task: seq<int>, nr: nat, pid: int)
    requires nr < |task| && task[nr] == NULL && pid != NULL && !InUse(task, pid)
    requires forall i, j | 0 <= i < j < |task| && task[i] != NULL :: task[i] != task[j]
    ensures var t := task[nr := pid]; forall i, j | 0 <= i < j < |t| && t[i] != NULL :: t[i] != t[j]
  {
    assert forall i | 0 <= i < |task| :: task[i] != pid;
  }
}
