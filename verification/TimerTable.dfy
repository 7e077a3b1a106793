/** add_timer and the timer part of do_timer in their own form: 64 slots, a list of them,
    and contents swapped from slot to slot on the way in. */
module TimerTable {
  import opened Timers

  const TIME_REQUESTS: nat := 64
  const NIL: int := -1

  /** struct timer_list; fn 0 is NULL, a free slot. */
  datatype Slot = Slot(jiffies: int, fn: nat, next: int)

  /** Slot order[k] is linked to the next one and holds timer list[k]. */
  ghost predicate At(slots: seq<Slot>, order: seq<nat>, list: seq<Timer>, k: nat)
    requires k < |order| == |list|
  {
    && order[k] < |slots| && list[k].fn != 0
    && slots[order[k]] == Slot(list[k].delta, list[k].fn, if k + 1 < |order| then order[k + 1] else NIL)
  }

  ghost predicate Linked(slots: seq<Slot>, order: seq<nat>, list: seq<Timer>, first: int) {
    && |order| == |list| && first == (if order == [] then NIL else order[0])
    && (forall i, j | 0 <= i < j < |order| :: order[i] != order[j])
    && forall k: nat {:trigger At(slots, order, list, k)} | k < |order| :: At(slots, order, list, k)
  }

  /** The slots on the list are exactly those with a function. */
  ghost predicate FnIffListed(slots: seq<Slot>, order: seq<nat>) {
    forall i: nat {:trigger i in order} | i < |slots| :: i in order <==> slots[i].fn != 0
  }

  ghost predicate Listed(slots: seq<Slot>, order: seq<nat>, list: seq<Timer>, first: int) {
    |slots| == TIME_REQUESTS && Linked(slots, order, list, first) && FnIffListed(slots, order)
  }

  /** Only the delta and the function of a timer are stored. */
  lemma SameContents(slots: seq<Slot>, order: seq<nat>, a: seq<Timer>, b: seq<Timer>, first: int)
    requires Listed(slots, order, a, first) && |a| == |b|
    requires forall k | 0 <= k < |a| :: a[k].delta == b[k].delta && a[k].fn == b[k].fn
    ensures Listed(slots, order, b, first)
  {
    forall k: nat | k < |order| ensures At(slots, order, b, k) {
      assert At(slots, order, a, k);
    }
  }

  /** A free slot filled and put in front. */
  lemma Pushed(was: seq<Slot>, slots: seq<Slot>, order: seq<nat>, list: seq<Timer>, first: int, start: nat, t: Timer)
    requires Listed(was, order, list, first) && start < TIME_REQUESTS && start !in order && t.fn != 0
    requires slots == was[start := Slot(t.delta, t.fn, first)]
    ensures Listed(slots, [start] + order, [t] + list, start)
  {
    var o, l := [start] + order, [t] + list;
    forall k: nat | k < |o| ensures At(slots, o, l, k) {
      if k > 0 {
        assert At(was, order, list, k - 1) && order[k - 1] in order;
      }
    }
  }

  /** What one round of add_timer's loop makes of the contents, in list order. */
  function Swapped(c: seq<Timer>, i: nat): (d: seq<Timer>)
    requires i + 1 < |c|
  {
    c[i := c[i + 1]][i + 1 := c[i].(delta := c[i].delta - c[i + 1].delta)]
  }

  /** The contents while the new timer, i places down, has `left` ticks to go. */
  function Sunk(l: seq<Timer>, i: nat, left: int, fn: nat, asked: int): (c: seq<Timer>)
    requires i <= |l|
    ensures |c| == |l| + 1 && c[i] == Timer(left, fn, asked, 0)
    ensures i < |l| ==> c[i + 1] == l[i]
  {
    l[..i] + [Timer(left, fn, asked, 0)] + l[i..]
  }

  lemma SinkRound(l: seq<Timer>, i: nat, left: int, fn: nat, asked: int)
    requires i < |l| && l[i].delta < left
    ensures Swapped(Sunk(l, i, left, fn, asked), i) == Sunk(l, i + 1, left - l[i].delta, fn, asked)
    ensures l[..i] + Insert(l[i..], left, fn, asked) == l[..i + 1] + Insert(l[i + 1..], left - l[i].delta, fn, asked)
  {
    assert l[i..][1..] == l[i + 1..] && l[..i] + [l[i]] == l[..i + 1];
  }

  lemma SinkDone(l: seq<Timer>, i: nat, left: int, fn: nat, asked: int)
    requires i <= |l| && (i < |l| ==> l[i].delta >= left)
    ensures var c, t := Sunk(l, i, left, fn, asked), l[..i] + Insert(l[i..], left, fn, asked);
      |c| == |t| && forall k | 0 <= k < |c| :: c[k].delta == t[k].delta && c[k].fn == t[k].fn
  {
    var t := l[..i] + Insert(l[i..], left, fn, asked);
    assert t == l[..i] + ([Timer(left, fn, asked, 0)] + PushBack(l[i..], left));
  }

  lemma SwapKeeps(was: seq<Slot>, slots: seq<Slot>, order: seq<nat>, c: seq<Timer>, first: int, i: nat)
    requires Listed(was, order, c, first) && i + 1 < |c|
    requires var p, n := order[i], order[i + 1];
      && At(was, order, c, i) && At(was, order, c, i + 1)
      && slots == was[p := Slot(c[i + 1].delta, c[i + 1].fn, was[p].next)][n := Slot(c[i].delta - c[i + 1].delta, c[i].fn, was[n].next)]
    ensures Listed(slots, order, Swapped(c, i), first)
  {
    forall k: nat | k < |order| ensures At(slots, order, Swapped(c, i), k) {
      assert At(was, order, c, k);
    }
  }

  function Fns(list: seq<Timer>): (f: seq<nat>)
    ensures |f| == |list|
  {
    seq(|list|, k requires 0 <= k < |list| => list[k].fn)
  }

  lemma ExpireRound(list: seq<Timer>)
    requires list != [] && list[0].delta <= 0
    ensures Expire(list).0 == Expire(list[1..]).0 && Fns(Expire(list).1) == [list[0].fn] + Fns(Expire(list[1..]).1)
  {
  }

  class Table {
    const slots: array<Slot>
    var nextTimer: int
    ghost var order: seq<nat>
    ghost var list: seq<Timer>

    ghost predicate Valid()
      reads this, slots
    {
      Listed(slots[..], order, list, nextTimer)
    }

    constructor ()
      ensures Valid() && list == []
    {
      slots := new Slot[TIME_REQUESTS](i => Slot(0, 0, NIL));
      nextTimer := NIL;
      order := [];
      list := [];
    }

    /** add_timer. `ran` means fn was called at once; `full` is the panic. */
    method AddTimer(jiffies: int, fn: nat, ghost asked: int) returns (ran: bool, full: bool)
      requires Valid()
      modifies this, slots
      ensures Valid()
      ensures ran <==> fn != 0 && jiffies <= 0
      ensures full <==> fn != 0 && jiffies > 0 && forall i | 0 <= i < TIME_REQUESTS :: old(slots[i].fn) != 0
      ensures list == if fn != 0 && jiffies > 0 && !full then Insert(old(list), jiffies, fn, asked) else old(list)
    {
      ran, full := false, false;
      if fn == 0 {
        return;
      }
      if jiffies <= 0 {
        return true, false;
      }
      var p := 0;
      while p < TIME_REQUESTS && slots[p].fn != 0
        invariant 0 <= p <= TIME_REQUESTS && forall i | 0 <= i < p :: slots[i].fn != 0
      {
        p := p + 1;
      }
      if p >= TIME_REQUESTS {
        return false, true;
      }
      assert p !in order;
      Sink(p, jiffies, fn, asked);
    }

    /** The new timer, put in front, sinks to its place by trading contents with the next slot. */
    method Sink(start: nat, jiffies: int, fn: nat, ghost asked: int)
      requires Valid() && start < TIME_REQUESTS && start !in order && fn != 0
      modifies this, slots
      ensures Valid() && list == Insert(old(list), jiffies, fn, asked)
    {
      ghost var l, t := list, Insert(list, jiffies, fn, asked);
      ghost var i, left := 0, jiffies;
      slots[start] := Slot(jiffies, fn, nextTimer);
      Pushed(old(slots[..]), slots[..], order, list, nextTimer, start, Timer(jiffies, fn, asked, 0));
      nextTimer := start;
      order := [start] + order;
      list := [Timer(jiffies, fn, asked, 0)] + list;
      var p := start;
      assert l[..0] + Insert(l[0..], left, fn, asked) == t && list == Sunk(l, 0, left, fn, asked) by { assert l[0..] == l; }
      while NextIsSmaller(p, i)
        invariant Valid() && i <= |l| && |list| == |l| + 1 && p == order[i]
        invariant list == Sunk(l, i, left, fn, asked)
        invariant t == l[..i] + Insert(l[i..], left, fn, asked)
        decreases |l| - i
      {
        SinkRound(l, i, left, fn, asked);
        p := SwapWithNext(p, i);
        left := left - l[i].delta;
        i := i + 1;
      }
      SinkDone(l, i, left, fn, asked);
      SameContents(slots[..], order, list, t, nextTimer);
      list := t;
    }

    /** The loop's test: there is a next timer and it is due sooner. */
    predicate NextIsSmaller(p: nat, ghost i: nat)
      requires Valid() && i < |order| && p == order[i]
      reads this, slots
      ensures NextIsSmaller(p, i) <==> i + 1 < |list| && list[i + 1].delta < list[i].delta
    {
      assert At(slots[..], order, list, i);
      assert i + 1 < |order| ==> At(slots[..], order, list, i + 1);
      slots[p].next != NIL && slots[slots[p].next].jiffies < slots[p].jiffies
    }

    method SwapWithNext(p: nat, ghost i: nat) returns (n: nat)
      requires Valid() && i + 1 < |order| && p == order[i]
      modifies slots, `list
      ensures Valid() && n == order[i + 1] && list == Swapped(old(list), i)
    {
      assert At(slots[..], order, list, i) && At(slots[..], order, list, i + 1);
      n := slots[p].next;
      slots[p] := slots[p].(jiffies := slots[p].jiffies - slots[n].jiffies);
      var f := slots[p].fn;
      slots[p] := slots[p].(fn := slots[n].fn);
      slots[n] := slots[n].(fn := f);
      var j := slots[p].jiffies;
      slots[p] := slots[p].(jiffies := slots[n].jiffies);
      slots[n] := slots[n].(jiffies := j);
      SwapKeeps(old(slots[..]), slots[..], order, list, nextTimer, i);
      list := Swapped(list, i);
    }

    /** The timer part of do_timer; `fired` are the functions called, in order. */
    method DoTimer() returns (fired: seq<nat>)
      requires Valid()
      modifies this, slots
      ensures Valid() && list == Tick(old(list)).0 && fired == Fns(Tick(old(list)).1)
    {
      fired := [];
      if nextTimer != NIL {
        assert At(slots[..], order, list, 0);
        ghost var before := slots[..];
        slots[nextTimer] := slots[nextTimer].(jiffies := slots[nextTimer].jiffies - 1);
        FrontTicks(before, slots[..], order, list, nextTimer);
        list := [list[0].(delta := list[0].delta - 1)] + list[1..];
        fired := FireDue();
      }
    }

    /** do_timer's inner loop. */
    method FireDue() returns (fired: seq<nat>)
      requires Valid()
      modifies this, slots
      ensures Valid() && list == Expire(old(list)).0 && fired == Fns(Expire(old(list)).1)
    {
      fired := [];
      while FrontIsDue()
        invariant Valid() && Expire(old(list)).0 == Expire(list).0
        invariant Fns(Expire(old(list)).1) == fired + Fns(Expire(list).1)
        decreases |list|
      {
        ExpireRound(list);
        var fn := PopFront();
        fired := fired + [fn];
      }
    }

    predicate FrontIsDue()
      requires Valid()
      reads this, slots
      ensures FrontIsDue() <==> list != [] && list[0].delta <= 0
    {
      assert list != [] ==> At(slots[..], order, list, 0);
      nextTimer != NIL && slots[nextTimer].jiffies <= 0
    }

    method PopFront() returns (fn: nat)
      requires Valid() && list != []
      modifies this, slots
      ensures Valid() && list == old(list[1..]) && fn == old(list[0].fn)
    {
      assert At(slots[..], order, list, 0);
      ghost var first := nextTimer;
      fn := slots[nextTimer].fn;
      slots[nextTimer] := slots[nextTimer].(fn := 0);
      nextTimer := slots[nextTimer].next;
      Popped(old(slots[..]), slots[..], order, list, first, nextTimer);
      order, list := order[1..], list[1..];
    }
  }

  lemma FrontTicks(was: seq<Slot>, slots: seq<Slot>, order: seq<nat>, list: seq<Timer>, first: int)
    requires Listed(was, order, list, first) && first != NIL && At(was, order, list, 0)
    requires slots == was[first := was[first].(jiffies := was[first].jiffies - 1)]
    ensures Listed(slots, order, [list[0].(delta := list[0].delta - 1)] + list[1..], first)
  {
    var l := [list[0].(delta := list[0].delta - 1)] + list[1..];
    forall k: nat | k < |order| ensures At(slots, order, l, k) {
      assert At(was, order, list, k);
    }
  }

  lemma Popped(was: seq<Slot>, slots: seq<Slot>, order: seq<nat>, list: seq<Timer>, first: int, next: int)
    requires Listed(was, order, list, first) && list != [] && At(was, order, list, 0)
    requires slots == was[first := was[first].(fn := 0)] && next == was[first].next
    ensures Listed(slots, order[1..], list[1..], next)
  {
    forall k: nat | k < |order[1..]| ensures At(slots, order[1..], list[1..], k) {
      assert At(was, order, list, k + 1);
    }
    forall i: nat | i < |slots| ensures i in order[1..] <==> slots[i].fn != 0 {
      assert i in order <==> i == order[0] || i in order[1..];
    }
  }
}
