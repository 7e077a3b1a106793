/** ll_rw_blk.c and end_request in their own form: 32 request slots threaded by `next`
    from one head per driver, and the lock and dirty bits of buffers. */
module BlockQueue {
  import opened Elevator

  const NR_REQUEST: nat := 32
  const NR_BLK_DEV: nat := 7
  const NIL: int := -1

  /** struct request; dev is -1 in a free slot. */
  datatype Slot = Slot(dev: int, cmd: Command, sector: Sector, bh: nat, next: int)

  /** What a slot in use asks for. */
  function ReqOf(r: Slot): Req
    requires 0 <= r.dev < 0x1_0000
  {
    Req(r.cmd, r.dev, r.sector, r.bh)
  }

  /** Slot list[k] is in use and linked to the next one. */
  ghost predicate SlotAt(slots: seq<Slot>, list: seq<nat>, k: nat)
    requires k < |list|
  {
    && list[k] < |slots| && 0 <= slots[list[k]].dev < 0x1_0000
    && slots[list[k]].next == (if k + 1 < |list| then list[k + 1] else NIL)
  }

  ghost predicate ListOk(slots: seq<Slot>, list: seq<nat>, first: int) {
    && first == (if list == [] then NIL else list[0])
    && (forall i, j | 0 <= i < j < |list| :: list[i] != list[j])
    && forall k: nat {:trigger SlotAt(slots, list, k)} | k < |list| :: SlotAt(slots, list, k)
  }

  ghost predicate AllInUse(slots: seq<Slot>, list: seq<nat>) {
    forall k | 0 <= k < |list| :: list[k] < |slots| && 0 <= slots[list[k]].dev < 0x1_0000
  }

  /** The requests behind a list. */
  ghost function Queue(slots: seq<Slot>, list: seq<nat>): (q: seq<Req>)
    requires AllInUse(slots, list)
    ensures |q| == |list| && forall k | 0 <= k < |list| :: q[k] == ReqOf(slots[list[k]])
  {
    seq(|list|, k requires 0 <= k < |list| => ReqOf(slots[list[k]]))
  }

  predicate OnList(lists: seq<seq<nat>>, m: nat, i: nat) {
    m < |lists| && i in lists[m]
  }

  /** A slot in use is on a list, unless it is `out`; a write has one of the low slots. */
  ghost predicate SlotOk(slots: seq<Slot>, lists: seq<seq<nat>>, out: int, i: nat)
    requires i < |slots|
  {
    slots[i].dev >= 0 ==>
      (i != out ==> exists m: nat :: OnList(lists, m, i)) && (i >= NR_REQUEST * 2 / 3 ==> slots[i].cmd == READ)
  }

  /** Every slot in use is on exactly one driver's list, but for `out`, filled in and not
      yet queued. */
  ghost predicate PoolOk(slots: seq<Slot>, current: seq<int>, lists: seq<seq<nat>>, out: int) {
    && |slots| == NR_REQUEST && |current| == |lists| == NR_BLK_DEV
    && (forall m: nat {:trigger ListOk(slots, lists[m], current[m])} | m < NR_BLK_DEV :: ListOk(slots, lists[m], current[m]))
    && (forall m: nat, n: nat, i: nat {:trigger OnList(lists, m, i), OnList(lists, n, i)} |
          OnList(lists, m, i) && OnList(lists, n, i) :: m == n && i != out)
    && (forall i: nat {:trigger SlotOk(slots, lists, out, i)} | i < NR_REQUEST :: SlotOk(slots, lists, out, i))
  }

  /** Putting a fresh slot after position p of a list. */
  function Splice(list: seq<nat>, p: nat, s: nat): seq<nat>
    requires p <= |list|
  {
    list[..p] + [s] + list[p..]
  }

  function Linked(slots: seq<Slot>, s: nat, at: int): seq<Slot>
    requires s < |slots| && NIL <= at < |slots|
  {
    if at == NIL then slots[s := slots[s].(next := NIL)]
    else
      var t := slots[s := slots[s].(next := slots[at].next)];
      t[at := t[at].(next := s)]
  }

  lemma SpliceAt(list: seq<nat>, p: nat, s: nat, k: nat)
    requires p <= |list| && k <= |list|
    ensures Splice(list, p, s)[k] == if k < p then list[k] else if k == p then s else list[k - 1]
  {
  }

  lemma SpliceDistinct(list: seq<nat>, p: nat, s: nat)
    requires p <= |list| && s !in list && forall i, j | 0 <= i < j < |list| :: list[i] != list[j]
    ensures forall i, j | 0 <= i < j < |Splice(list, p, s)| :: Splice(list, p, s)[i] != Splice(list, p, s)[j]
  {
    var l := Splice(list, p, s);
    forall i, j | 0 <= i < j < |l| ensures l[i] != l[j] {
      SpliceAt(list, p, s, i);
      SpliceAt(list, p, s, j);
      assert i != p ==> l[i] in list;
      assert j != p ==> l[j] in list;
    }
  }

  lemma SpliceOk(slots: seq<Slot>, list: seq<nat>, first: int, s: nat, p: nat)
    requires ListOk(slots, list, first) && list != [] && p < |list|
    requires s < |slots| && 0 <= slots[s].dev < 0x1_0000 && s !in list
    ensures list[p] < |slots| && ListOk(Linked(slots, s, list[p]), Splice(list, p + 1, s), first)
  {
    assert SlotAt(slots, list, p);
    var t, l := Linked(slots, s, list[p]), Splice(list, p + 1, s);
    SpliceDistinct(list, p + 1, s);
    forall k: nat | k < |l| ensures SlotAt(t, l, k) {
      SplicedSlot(slots, list, first, s, p, k);
    }
  }

  lemma SplicedSlot(slots: seq<Slot>, list: seq<nat>, first: int, s: nat, p: nat, k: nat)
    requires ListOk(slots, list, first) && p < |list| && list[p] < |slots| && k <= |list|
    requires s < |slots| && 0 <= slots[s].dev < 0x1_0000 && s !in list
    ensures SlotAt(Linked(slots, s, list[p]), Splice(list, p + 1, s), k)
  {
    SpliceAt(list, p + 1, s, k);
    if k < |list| {
      SpliceAt(list, p + 1, s, k + 1);
    }
    assert list[p] in list && SlotAt(slots, list, p);
    if k != p + 1 {
      var o := if k <= p then k else k - 1;
      assert SlotAt(slots, list, o) && list[o] in list && (o != p ==> list[o] != list[p]);
    }
  }

  /** add_request on the pool: one list replaced by the spliced one. */
  lemma AddedOk(slots: seq<Slot>, current: seq<int>, lists: seq<seq<nat>>, s: nat, m: nat, t: seq<Slot>, c: seq<int>, l: seq<nat>)
    requires PoolOk(slots, current, lists, s) && s < NR_REQUEST && m < NR_BLK_DEV && slots[s].dev >= 0
    requires |t| == |slots| && |c| == |current| && c == current[m := c[m]] && ListOk(t, l, c[m])
    requires forall i: nat :: i in l <==> i in lists[m] || i == s
    requires forall i: nat | i < NR_REQUEST :: t[i] == slots[i].(next := t[i].next) && (i in lists[m] || i == s || t[i] == slots[i])
    ensures PoolOk(t, c, lists[m := l], NIL)
  {
    var ls := lists[m := l];
    assert ListOk(slots, lists[m], current[m]);
    forall n: nat | n < NR_BLK_DEV ensures ListOk(t, ls[n], c[n]) {
      assert ListOk(slots, lists[n], current[n]);
      if n != m {
        forall k: nat | k < |lists[n]| ensures SlotAt(t, lists[n], k) {
          assert SlotAt(slots, lists[n], k) && OnList(lists, n, lists[n][k]);
          assert !OnList(lists, m, lists[n][k]);
        }
      }
    }
    forall i: nat | i < NR_REQUEST ensures SlotOk(t, ls, NIL, i) {
      assert SlotOk(slots, lists, s, i);
      if i == s {
        assert OnList(ls, m, i);
      } else if t[i].dev >= 0 {
        var n: nat :| OnList(lists, n, i);
        assert OnList(ls, n, i);
      }
    }
    forall n: nat, o: nat, i: nat | OnList(ls, n, i) && OnList(ls, o, i) ensures n == o {
      assert OnList(lists, n, i) || (n == m && i == s);
      assert OnList(lists, o, i) || (o == m && i == s);
    }
  }

  // ---- steps of the elevator's system -------------------------------------------------

  predicate Asks(q: seq<Req>, b: nat) {
    exists i {:trigger q[i]} :: 0 <= i < |q| && q[i].bh == b
  }

  /** A driver's queue and the lock bits, as the elevator's system. */
  ghost function SystemOf(q: seq<Req>, lock: seq<bool>, half: bool, ids: map<nat, Identity>): System {
    System(q, half, (set b: nat | b < |lock| && lock[b] && !Asks(q, b)), ids)
  }

  /** The system is in order, and what is queued is locked. */
  ghost predicate InStep(q: seq<Req>, lock: seq<bool>, half: bool, ids: map<nat, Identity>) {
    SystemOk(SystemOf(q, lock, half, ids)) && forall b: nat | Asks(q, b) :: b < |lock| && lock[b]
  }

  /** Locking a buffer and queueing its request are two steps of the system. */
  lemma SubmitIsStep(q: seq<Req>, lock: seq<bool>, half: bool, ids: map<nat, Identity>, r: Req)
    requires InStep(q, lock, half, ids) && r.bh < |lock| && !lock[r.bh] && IsFor(r, ids)
    ensures var s, t := SystemOf(q, lock, half, ids), SystemOf(Add(q, r), lock[r.bh := true], half, ids);
      var u := s.(claimed := s.claimed + {r.bh});
      Next(s, u, Lock(r.bh)) && Next(u, t, Submit(r))
    ensures InStep(Add(q, r), lock[r.bh := true], half, ids)
  {
    var s, t := SystemOf(q, lock, half, ids), SystemOf(Add(q, r), lock[r.bh := true], half, ids);
    var u := s.(claimed := s.claimed + {r.bh});
    AddAsks(q, r);
    assert t.claimed == s.claimed;
    assert s.claimed == u.claimed - {r.bh};
    assert Next(s, u, Lock(r.bh)) && Next(u, t, Submit(r));
    NextKeeps(s, u, Lock(r.bh));
    NextKeeps(u, t, Submit(r));
  }

  lemma AddAsks(q: seq<Req>, r: Req)
    ensures forall b: nat :: Asks(Add(q, r), b) <==> Asks(q, b) || b == r.bh
  {
    var t := Add(q, r);
    forall b: nat ensures Asks(t, b) <==> Asks(q, b) || b == r.bh {
      if Asks(q, b) {
        var i :| 0 <= i < |q| && q[i].bh == b;
        assert t[if q != [] && i <= Place(q, r, 0) then i else i + 1] == q[i];
      }
      assert t[if q == [] then 0 else Place(q, r, 0) + 1] == r;
    }
  }

  /** So is completing the head and giving its lock up. */
  lemma CompleteIsStep(q: seq<Req>, lock: seq<bool>, half: bool, ids: map<nat, Identity>)
    requires InStep(q, lock, half, ids) && q != [] && q[0].bh < |lock|
    ensures var s, t := SystemOf(q, lock, half, ids), SystemOf(q[1..], lock[q[0].bh := false], false, ids);
      Next(s, t, Complete)
    ensures InStep(q[1..], lock[q[0].bh := false], false, ids)
  {
    var s, t := SystemOf(q, lock, half, ids), SystemOf(q[1..], lock[q[0].bh := false], false, ids);
    TailAsks(q);
    forall i | 0 < i < |q| ensures q[i].bh != q[0].bh {
      assert Base(s)[0].bh == q[0].bh && Base(s)[i].bh == q[i].bh;
    }
    assert t.claimed == s.claimed;
    NextKeeps(s, t, Complete);
  }

  lemma TailAsks(q: seq<Req>)
    requires q != []
    ensures forall b: nat :: Asks(q, b) <==> Asks(q[1..], b) || b == q[0].bh
  {
    var t := q[1..];
    forall b: nat ensures Asks(q, b) <==> Asks(t, b) || b == q[0].bh {
      assert forall i | 0 < i < |q| :: q[i] == t[i - 1];
      assert forall i | 0 <= i < |t| :: t[i] == q[i + 1];
    }
  }

  datatype Made =
    | Queued          // the request is on the queue
    | Unneeded        // nothing to write, or already up to date
    | Skipped         // read-ahead given up
    | WaitForBuffer   // sleeping in lock_buffer
    | WaitForRequest  // holding the lock, sleeping until a slot is free
    | BadCommand

  class BlockLayer {
    const request: array<Slot>
    const current: array<int>      // blk_dev[].current_request
    const bLock: array<bool>
    const bDirt: array<bool>
    const bUptodate: array<bool>
    ghost var lists: seq<seq<nat>>

    ghost predicate Shaped() {
      request.Length == NR_REQUEST && current.Length == NR_BLK_DEV && bLock != bDirt && bLock != bUptodate && bDirt != bUptodate
      && bLock.Length == bDirt.Length == bUptodate.Length
    }

    ghost predicate Pool(out: int)
      reads this, request, current
    {
      Shaped() && PoolOk(request[..], current[..], lists, out)
    }

    /** The queue of driver m. */
    ghost function QueueOf(m: nat, out: int): seq<Req>
      requires Pool(out) && m < NR_BLK_DEV
      reads this, request, current
    {
      InUse(request[..], current[..], lists, out, m);
      Queue(request[..], lists[m])
    }

    /** A free slot a request of this kind may have: writes stay out of the last third. */
    ghost predicate Room(rw: Command)
      requires Shaped()
      reads request
    {
      exists i :: 0 <= i < (if rw == READ then NR_REQUEST else NR_REQUEST * 2 / 3) && request[i].dev < 0
    }

    /** There is something to transfer. */
    predicate Needed(rw: Command, bh: nat)
      requires Shaped() && bh < bLock.Length
      reads bDirt, bUptodate
    {
      if rw == WRITE then bDirt[bh] else !bUptodate[bh]
    }

    /** Driver m's queue and the locks are as the elevator's system has them. */
    ghost predicate Consistent(m: nat, half: bool, ids: map<nat, Identity>)
      requires Pool(NIL) && m < NR_BLK_DEV
      reads this, request, current, bLock
    {
      InStep(QueueOf(m, NIL), bLock[..], half, ids)
    }

    ghost function Sys(m: nat, half: bool, ids: map<nat, Identity>): System
      requires Pool(NIL) && m < NR_BLK_DEV
      reads this, request, current, bLock
    {
      SystemOf(QueueOf(m, NIL), bLock[..], half, ids)
    }

    /** blk_dev_init. */
    constructor (buffers: nat)
      ensures Pool(NIL) && (forall m: nat | m < NR_BLK_DEV :: QueueOf(m, NIL) == [])
      ensures forall b | 0 <= b < bLock.Length :: !bLock[b]
    {
      request := new Slot[NR_REQUEST](i => Slot(-1, READ, 0, 0, NIL));
      current := new int[NR_BLK_DEV](m => NIL);
      bLock := new bool[buffers](b => false);
      bDirt := new bool[buffers](b => false);
      bUptodate := new bool[buffers](b => false);
      lists := seq(NR_BLK_DEV, m => []);
    }

    /** The search loop of add_request. */
    method FindPlace(m: nat, s: nat) returns (tmp: nat, ghost p: nat)
      requires Pool(s) && m < NR_BLK_DEV && s < NR_REQUEST && 0 <= request[s].dev < 0x1_0000 && lists[m] != []
      ensures p < |lists[m]| && tmp == lists[m][p] && tmp < NR_REQUEST
      ensures p == Place(QueueOf(m, s), ReqOf(request[s]), 0)
    {
      ghost var list, q, r := lists[m], QueueOf(m, s), ReqOf(request[s]);
      assert ListOk(request[..], list, current[..][m]);
      assert SlotAt(request[..], list, 0);
      tmp := current[m];
      p := 0;
      while request[tmp].next != NIL
        invariant 0 <= p < |list| && tmp == list[p] && tmp < NR_REQUEST
        invariant Place(q, r, p) == Place(q, r, 0)
        decreases |list| - p
      {
        assert SlotAt(request[..], list, p);
        assert SlotAt(request[..], list, p + 1);
        var next := request[tmp].next;
        if (InOrder(ReqOf(request[tmp]), ReqOf(request[s])) || !InOrder(ReqOf(request[tmp]), ReqOf(request[next])))
           && InOrder(ReqOf(request[s]), ReqOf(request[next])) {
          return;
        }
        tmp := next;
        p := p + 1;
      }
      assert SlotAt(request[..], list, p);
    }

    /** The queue was empty: the request becomes its head. */
    method QueueFirst(m: nat, s: nat)
      requires Pool(s) && m < NR_BLK_DEV && s < NR_REQUEST && 0 <= request[s].dev < 0x1_0000 && current[m] == NIL
      modifies request, current, this`lists
      ensures Pool(NIL) && lists[m] == [s] && lists == old(lists)[m := [s]] && request[..] == Linked(old(request[..]), s, NIL)
      ensures old(QueueOf(m, s)) == []
    {
      ghost var slots, cs := request[..], current[..];
      assert ListOk(slots, lists[m], cs[m]);
      request[s] := request[s].(next := NIL);
      current[m] := s;
      assert SlotAt(request[..], [s], 0);
      AddedOk(slots, cs, lists, s, m, request[..], current[..], [s]);
      lists := lists[m := [s]];
    }

    /** The request goes after slot tmp, the p-th of the queue. */
    method QueueAfter(m: nat, s: nat, tmp: nat, ghost p: nat)
      requires Pool(s) && m < NR_BLK_DEV && s < NR_REQUEST && 0 <= request[s].dev < 0x1_0000
      requires p < |lists[m]| && tmp == lists[m][p] && tmp < NR_REQUEST
      modifies request, this`lists
      ensures Pool(NIL) && lists == old(lists)[m := Splice(old(lists)[m], p + 1, s)] && request[..] == Linked(old(request[..]), s, tmp)
    {
      ghost var slots, list := request[..], lists[m];
      assert ListOk(slots, list, current[..][m]);
      assert !OnList(lists, m, s);
      SpliceOk(slots, list, current[m], s, p);
      assert list[p] in list;
      request[s] := request[s].(next := request[tmp].next);
      request[tmp] := request[tmp].(next := s);
      assert request[..] == Linked(slots, s, tmp);
      SpliceMembers(list, p + 1, s);
      AddedOk(slots, current[..], lists, s, m, request[..], current[..], Splice(list, p + 1, s));
      lists := lists[m := Splice(list, p + 1, s)];
    }

    /** The queue was not empty: the request goes where the search says. */
    method QueueInOrder(m: nat, s: nat)
      requires Pool(s) && m < NR_BLK_DEV && s < NR_REQUEST && 0 <= request[s].dev < 0x1_0000 && current[m] != NIL
      modifies request, this`lists
      ensures Pool(NIL) && QueueOf(m, NIL) == Add(old(QueueOf(m, s)), old(ReqOf(request[s])))
      ensures |lists| == |old(lists)| && (forall n: nat | n < NR_BLK_DEV && n != m :: lists[n] == old(lists)[n])
      ensures forall i: nat | i < NR_REQUEST :: request[..][i] == old(request[..])[i].(next := request[..][i].next)
    {
      ghost var slots, l := request[..], lists[m];
      InUse(slots, current[..], lists, s, m);
      assert ListOk(slots, l, current[..][m]);
      var tmp: nat; ghost var p: nat;
      tmp, p := FindPlace(m, s);
      QueueAfter(m, s, tmp, p);
      QueueSpliced(slots, l, s, p + 1);
      QueueKept(slots, request[..], Splice(l, p + 1, s));
    }

    /** add_request: slot s, filled in, goes on driver m's queue. */
    method AddRequest(m: nat, s: nat)
      requires Pool(s) && m < NR_BLK_DEV && s < NR_REQUEST && 0 <= request[s].dev < 0x1_0000 && request[s].bh < bDirt.Length
      modifies request, current, bDirt, this`lists
      ensures Pool(NIL) && QueueOf(m, NIL) == Add(old(QueueOf(m, s)), old(ReqOf(request[s])))
      ensures forall n: nat | n < NR_BLK_DEV && n != m :: QueueOf(n, NIL) == old(QueueOf(n, s))
      ensures bDirt[..] == old(bDirt[..])[old(request[s].bh) := false]
    {
      bDirt[request[s].bh] := false;
      ghost var slots := request[..];
      if current[m] == NIL {
        QueueFirst(m, s);
        assert Queue(slots, [s]) == [ReqOf(slots[s])];
        QueueKept(slots, request[..], [s]);
      } else {
        QueueInOrder(m, s);
      }
      forall n: nat | n < NR_BLK_DEV && n != m ensures QueueOf(n, NIL) == old(QueueOf(n, s)) {
        InUse(slots, old(current[..]), old(lists), s, n);
        QueueKept(slots, request[..], lists[n]);
      }
    }

    /** The search from the top for a free slot; writes stay out of the last third. */
    method FindSlot(rw: Command) returns (req: int)
      requires Shaped()
      ensures NIL <= req < if rw == READ then NR_REQUEST else NR_REQUEST * 2 / 3
      ensures req >= 0 ==> forall i | req < i < (if rw == READ then NR_REQUEST else NR_REQUEST * 2 / 3) :: request[i].dev >= 0
      ensures if req >= 0 then request[req].dev < 0
              else forall i | 0 <= i < (if rw == READ then NR_REQUEST else NR_REQUEST * 2 / 3) :: request[i].dev >= 0
    {
      req := if rw == READ then NR_REQUEST - 1 else NR_REQUEST * 2 / 3 - 1;
      ghost var top := req + 1;
      while req >= 0 && request[req].dev >= 0
        invariant NIL <= req < top
        invariant forall i | req < i < top :: request[i].dev >= 0
      {
        req := req - 1;
      }
    }

    /** A free slot is filled in, on no queue yet. */
    method FillSlot(s: nat, r: Slot)
      requires Pool(NIL) && s < NR_REQUEST && request[s].dev < 0 && r.dev >= 0 && r.bh < bDirt.Length
      requires s >= NR_REQUEST * 2 / 3 ==> r.cmd == READ
      modifies request
      ensures Pool(s) && request[s] == r && forall n: nat | n < NR_BLK_DEV :: QueueOf(n, s) == old(QueueOf(n, NIL))
    {
      ghost var slots := request[..];
      request[s] := r;
      FilledOk(slots, current[..], lists, s, r);
      assert request[..] == slots[s := r];
    }

    /** make_request from its `repeat:` label, the buffer locked: find a slot and queue. */
    method FromRepeat(m: nat, rw: Command, ahead: bool, bh: nat, dev: Device, block: nat) returns (made: Made)
      requires Pool(NIL) && m < NR_BLK_DEV && bh < bLock.Length && 2 * block < 0x1_0000_0000
      modifies request, current, bDirt, bLock, this`lists
      ensures Pool(NIL) && made in {Queued, Skipped, WaitForRequest}
      ensures QueueOf(m, NIL) == if made == Queued then Add(old(QueueOf(m, NIL)), Req(rw, dev, 2 * block, bh)) else old(QueueOf(m, NIL))
      ensures forall n: nat | n < NR_BLK_DEV && n != m :: QueueOf(n, NIL) == old(QueueOf(n, NIL))
      ensures bLock[..] == if made == Skipped then old(bLock[..])[bh := false] else old(bLock[..])
      ensures bDirt[..] == if made == Queued then old(bDirt[..])[bh := false] else old(bDirt[..])
      ensures made == Queued <==> old(Room(rw))
      ensures made == Skipped <==> ahead && !old(Room(rw))
      ensures made == WaitForRequest <==> !ahead && !old(Room(rw))
    {
      var req := FindSlot(rw);
      if req < 0 {
        if ahead {
          bLock[bh] := false;
          return Skipped;
        }
        return WaitForRequest;
      }
      FillSlot(req, Slot(dev, rw, 2 * block, bh, NIL));
      AddRequest(m, req);
      return Queued;
    }

    /** make_request; rw is 0 READ, 1 WRITE, 2 READA or 3 WRITEA. */
    method MakeRequest(m: nat, rw: nat, bh: nat, dev: Device, block: nat) returns (made: Made)
      requires Pool(NIL) && m < NR_BLK_DEV && bh < bLock.Length && 2 * block < 0x1_0000_0000
      modifies request, current, bDirt, bLock, this`lists
      ensures Pool(NIL)
      ensures QueueOf(m, NIL) == if made == Queued then Add(old(QueueOf(m, NIL)), Req(rw % 2, dev, 2 * block, bh)) else old(QueueOf(m, NIL))
      ensures forall n: nat | n < NR_BLK_DEV && n != m :: QueueOf(n, NIL) == old(QueueOf(n, NIL))
      ensures bLock[..] == if made in {Queued, WaitForRequest} then old(bLock[..])[bh := true] else old(bLock[..])
      ensures made == BadCommand <==> rw >= 4
      ensures made == WaitForBuffer <==> rw < 2 && old(bLock[bh])
      ensures made == Unneeded <==> rw < 4 && !old(bLock[bh]) && !old(Needed(rw % 2, bh))
      ensures made == Queued <==> rw < 4 && !old(bLock[bh]) && old(Needed(rw % 2, bh)) && old(Room(rw % 2))
      ensures made == WaitForRequest <==> rw < 2 && !old(bLock[bh]) && old(Needed(rw % 2, bh)) && !old(Room(rw % 2))
      ensures made == Skipped <==> 2 <= rw < 4 && (old(bLock[bh]) || (old(Needed(rw % 2, bh)) && !old(Room(rw % 2))))
      ensures bDirt[..] == if made == Queued then old(bDirt[..])[bh := false] else old(bDirt[..])
      ensures made == Queued ==> forall half: bool, ids: map<nat, Identity> {:trigger Consistent(m, half, ids)} |
        old(Consistent(m, half, ids)) && IsFor(Req(rw % 2, dev, 2 * block, bh), ids) ::
          var s := old(Sys(m, half, ids)); var u := s.(claimed := s.claimed + {bh});
          Consistent(m, half, ids) && Next(s, u, Lock(bh)) && Next(u, Sys(m, half, ids), Submit(Req(rw % 2, dev, 2 * block, bh)))
    {
      if rw >= 2 && rw < 4 && bLock[bh] {
        return Skipped;
      }
      if rw >= 4 {
        return BadCommand;
      }
      if bLock[bh] {
        return WaitForBuffer;
      }
      ghost var locks := bLock[..];
      bLock[bh] := true;
      if (rw % 2 == 1 && !bDirt[bh]) || (rw % 2 == 0 && bUptodate[bh]) {
        bLock[bh] := false;
        assert bLock[..] == locks;
        return Unneeded;
      }
      made := FromRepeat(m, rw % 2, rw >= 2, bh, dev, block);
      assert locks[bh := true][bh := false] == locks;
      forall half: bool, ids: map<nat, Identity> |
        made == Queued && old(Consistent(m, half, ids)) && IsFor(Req(rw % 2, dev, 2 * block, bh), ids)
        ensures var s := old(Sys(m, half, ids)); var u := s.(claimed := s.claimed + {bh});
          Consistent(m, half, ids) && Next(s, u, Lock(bh)) && Next(u, Sys(m, half, ids), Submit(Req(rw % 2, dev, 2 * block, bh)))
      {
        SubmitIsStep(old(QueueOf(m, NIL)), locks, half, ids, Req(rw % 2, dev, 2 * block, bh));
      }
    }

    /** The head leaves the queue and its slot is free again. */
    method PopRequest(m: nat) returns (bh: nat)
      requires Pool(NIL) && m < NR_BLK_DEV && QueueOf(m, NIL) != []
      modifies request, current, this`lists
      ensures Pool(NIL) && bh == old(QueueOf(m, NIL)[0].bh)
      ensures forall n: nat | n < NR_BLK_DEV :: QueueOf(n, NIL) == if n == m then old(QueueOf(m, NIL))[1..] else old(QueueOf(n, NIL))
    {
      ghost var slots, cs := request[..], current[..];
      assert ListOk(slots, lists[m], cs[m]) && SlotAt(slots, lists[m], 0);
      var head := current[m];
      bh := request[head].bh;
      RemovedOk(slots, cs, lists, m);
      RemovedQueues(slots, cs, lists, m);
      request[head] := request[head].(dev := -1);
      current[m] := request[head].next;
      lists := lists[m := lists[m][1..]];
      assert request[..] == slots[head := slots[head].(dev := -1)] && current[..] == cs[m := slots[head].next];
    }

    /** end_request: the head is done, its buffer unlocked, its slot free. */
    method EndRequest(m: nat, uptodate: bool)
      requires Pool(NIL) && m < NR_BLK_DEV && QueueOf(m, NIL) != [] && QueueOf(m, NIL)[0].bh < bLock.Length
      modifies request, current, bLock, bUptodate, this`lists
      ensures Pool(NIL)
      ensures forall n: nat | n < NR_BLK_DEV :: QueueOf(n, NIL) == if n == m then old(QueueOf(m, NIL))[1..] else old(QueueOf(n, NIL))
      ensures bLock[..] == old(bLock[..])[old(QueueOf(m, NIL)[0].bh) := false]
      ensures bUptodate[..] == old(bUptodate[..])[old(QueueOf(m, NIL)[0].bh) := uptodate]
      ensures forall half: bool, ids: map<nat, Identity> {:trigger old(Consistent(m, half, ids))} | old(Consistent(m, half, ids)) ::
        Consistent(m, false, ids) && Next(old(Sys(m, half, ids)), Sys(m, false, ids), Complete)
    {
      var bh := PopRequest(m);
      bUptodate[bh] := uptodate;
      bLock[bh] := false;
      forall half: bool, ids: map<nat, Identity> | old(Consistent(m, half, ids))
        ensures Consistent(m, false, ids) && Next(old(Sys(m, half, ids)), Sys(m, false, ids), Complete)
      {
        CompleteIsStep(old(QueueOf(m, NIL)), old(bLock[..]), half, ids);
      }
    }
  }

  /** A free slot being filled in is on no list yet. */
  lemma FilledOk(slots: seq<Slot>, current: seq<int>, lists: seq<seq<nat>>, s: nat, r: Slot)
    requires PoolOk(slots, current, lists, NIL) && s < NR_REQUEST && slots[s].dev < 0
    requires r.dev >= 0 && (s >= NR_REQUEST * 2 / 3 ==> r.cmd == READ)
    ensures PoolOk(slots[s := r], current, lists, s)
    ensures forall m: nat | m < NR_BLK_DEV :: s !in lists[m]
    ensures forall m: nat | m < NR_BLK_DEV ::
      AllInUse(slots, lists[m]) && AllInUse(slots[s := r], lists[m]) && Queue(slots[s := r], lists[m]) == Queue(slots, lists[m])
  {
    var t := slots[s := r];
    forall m: nat | m < NR_BLK_DEV ensures ListOk(t, lists[m], current[m]) && s !in lists[m] {
      assert ListOk(slots, lists[m], current[m]);
      forall k: nat | k < |lists[m]| ensures SlotAt(t, lists[m], k) && lists[m][k] != s {
        assert SlotAt(slots, lists[m], k);
      }
    }
    forall m: nat, n: nat, i: nat | OnList(lists, m, i) && OnList(lists, n, i) ensures m == n && i != s {
    }
    forall i: nat | i < NR_REQUEST ensures SlotOk(t, lists, s, i) {
      assert SlotOk(slots, lists, NIL, i);
    }
    forall m: nat | m < NR_BLK_DEV
      ensures AllInUse(slots, lists[m]) && AllInUse(t, lists[m]) && Queue(t, lists[m]) == Queue(slots, lists[m])
    {
      InUse(slots, current, lists, NIL, m);
      InUse(t, current, lists, s, m);
      assert forall k | 0 <= k < |lists[m]| :: lists[m][k] in lists[m];
    }
  }

  /** The head of list m leaves it and its slot becomes free. */
  lemma RemovedOk(slots: seq<Slot>, current: seq<int>, lists: seq<seq<nat>>, m: nat)
    requires PoolOk(slots, current, lists, NIL) && m < NR_BLK_DEV && lists[m] != []
    ensures var h := lists[m][0];
      h < |slots| && PoolOk(slots[h := slots[h].(dev := -1)], current[m := slots[h].next], lists[m := lists[m][1..]], NIL)
  {
    var h, l := lists[m][0], lists[m][1..];
    assert ListOk(slots, lists[m], current[m]) && SlotAt(slots, lists[m], 0) && OnList(lists, m, h);
    var ls, t, c := lists[m := l], slots[h := slots[h].(dev := -1)], current[m := slots[h].next];
    forall n: nat | n < NR_BLK_DEV ensures ListOk(t, ls[n], c[n]) {
      assert ListOk(slots, lists[n], current[n]);
      forall k: nat | k < |ls[n]| ensures SlotAt(t, ls[n], k) {
        var j := if n == m then k + 1 else k;
        assert SlotAt(slots, lists[n], j) && OnList(lists, n, lists[n][j]);
      }
    }
    forall n: nat, o: nat, i: nat | OnList(ls, n, i) && OnList(ls, o, i) ensures n == o {
      assert OnList(lists, n, i) && OnList(lists, o, i);
    }
    forall i: nat | i < NR_REQUEST ensures SlotOk(t, ls, NIL, i) {
      assert SlotOk(slots, lists, NIL, i);
      if t[i].dev >= 0 {
        var n: nat :| OnList(lists, n, i);
        assert OnList(ls, n, i);
      }
    }
  }

  lemma RemovedQueue(slots: seq<Slot>, current: seq<int>, lists: seq<seq<nat>>, m: nat, n: nat)
    requires PoolOk(slots, current, lists, NIL) && m < NR_BLK_DEV && n < NR_BLK_DEV && lists[m] != [] && lists[m][0] < |slots|
    ensures AllInUse(slots, lists[n])
    ensures var h := lists[m][0]; var t := slots[h := slots[h].(dev := -1)]; var l := if n == m then lists[m][1..] else lists[n];
      AllInUse(t, l) && Queue(t, l) == if n == m then Queue(slots, lists[n])[1..] else Queue(slots, lists[n])
  {
    InUse(slots, current, lists, NIL, n);
    var h := lists[m][0];
    var t := slots[h := slots[h].(dev := -1)];
    var l := if n == m then lists[m][1..] else lists[n];
    assert OnList(lists, m, h) && ListOk(slots, lists[m], current[m]);
    forall k | 0 <= k < |l| ensures l[k] < |t| && t[l[k]] == slots[l[k]] {
      assert l[k] == lists[n][if n == m then k + 1 else k];
      assert OnList(lists, n, l[k]);
    }
  }

  lemma RemovedQueues(slots: seq<Slot>, current: seq<int>, lists: seq<seq<nat>>, m: nat)
    requires PoolOk(slots, current, lists, NIL) && m < NR_BLK_DEV && lists[m] != [] && lists[m][0] < |slots|
    ensures var h := lists[m][0]; var t := slots[h := slots[h].(dev := -1)]; var ls := lists[m := lists[m][1..]];
      forall n: nat | n < NR_BLK_DEV :: AllInUse(slots, lists[n]) && AllInUse(t, ls[n]) &&
        Queue(t, ls[n]) == if n == m then Queue(slots, lists[n])[1..] else Queue(slots, lists[n])
  {
    forall n: nat | n < NR_BLK_DEV
      ensures var h := lists[m][0]; var t := slots[h := slots[h].(dev := -1)]; var ls := lists[m := lists[m][1..]];
        AllInUse(slots, lists[n]) && AllInUse(t, ls[n]) &&
        Queue(t, ls[n]) == if n == m then Queue(slots, lists[n])[1..] else Queue(slots, lists[n])
    {
      RemovedQueue(slots, current, lists, m, n);
    }
  }

  /** Links are not part of what is asked for. */
  lemma QueueKept(slots: seq<Slot>, t: seq<Slot>, list: seq<nat>)
    requires AllInUse(slots, list)
    requires |t| == |slots| && forall i: nat | i < |t| :: t[i] == slots[i].(next := t[i].next)
    ensures AllInUse(t, list) && Queue(t, list) == Queue(slots, list)
  {
  }

  lemma QueueSpliced(slots: seq<Slot>, list: seq<nat>, s: nat, p: nat)
    requires AllInUse(slots, list)
    requires p <= |list| && s < |slots| && 0 <= slots[s].dev < 0x1_0000
    ensures (forall k | 0 <= k < |list| + 1 :: Splice(list, p, s)[k] == if k < p then list[k] else if k == p then s else list[k - 1])
    ensures AllInUse(slots, Splice(list, p, s)) && Queue(slots, Splice(list, p, s)) == Queue(slots, list)[..p] + [ReqOf(slots[s])] + Queue(slots, list)[p..]
  {
    var q := Queue(slots, Splice(list, p, s));
    forall k | 0 <= k < |q| ensures q[k] == (Queue(slots, list)[..p] + [ReqOf(slots[s])] + Queue(slots, list)[p..])[k] {
    }
  }

  lemma SpliceMembers(list: seq<nat>, p: nat, s: nat)
    requires p <= |list|
    ensures forall i: nat :: i in Splice(list, p, s) <==> i in list || i == s
  {
    assert list == list[..p] + list[p..];
  }

  lemma InUse(slots: seq<Slot>, current: seq<int>, lists: seq<seq<nat>>, out: int, m: nat)
    requires PoolOk(slots, current, lists, out) && m < NR_BLK_DEV
    ensures AllInUse(slots, lists[m])
  {
    assert ListOk(slots, lists[m], current[m]);
    forall k: nat | k < |lists[m]| ensures lists[m][k] < |slots| && 0 <= slots[lists[m][k]].dev < 0x1_0000 {
      assert SlotAt(slots, lists[m], k);
    }
  }
}
