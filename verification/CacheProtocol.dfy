/** getblk, get_hash_table and brelse of fs/buffer.c as a protocol: any number of
    activations, interleaved at every sleep, with the disk driver and sync locking and
    cleaning buffers in between. */
module CacheProtocol {

  /** The fields of a buffer_head that the protocol is about. */
  datatype Buf = Buf(dev: nat, block: nat, uptodate: bool, dirty: bool, count: nat, locked: bool)

  /** Where an activation sleeps, or what it holds. */
  datatype Pc =
    | Idle
    | HashWait(dev: nat, block: nat, bh: nat)  // get_hash_table: counted, waiting for the lock
    | FreeWait(dev: nat, block: nat)           // no buffer unused: sleeping on buffer_wait
    | Chosen(dev: nat, block: nat, bh: nat)    // unused buffer picked, waiting or in sync_dev
    | Hold(dev: nat, block: nat, bh: nat)      // getblk has returned bh

  datatype State = State(bufs: seq<Buf>, pcs: seq<Pc>)

  predicate Matches(b: Buf, dev: nat, block: nat) {
    b.dev == dev && b.block == block
  }

  /** find_buffer: a buffer with this identity, or -1. */
  function Find(bufs: seq<Buf>, dev: nat, block: nat): (r: int)
    ensures -1 <= r < |bufs|
    ensures r >= 0 ==> Matches(bufs[r], dev, block)
    ensures r < 0 ==> forall b | b in bufs :: !Matches(b, dev, block)
  {
    if bufs == [] then -1
    else if Matches(bufs[|bufs| - 1], dev, block) then |bufs| - 1
    else Find(bufs[..|bufs| - 1], dev, block)
  }

  function Counted(bufs: seq<Buf>, i: nat, delta: int): seq<Buf>
    requires i < |bufs|
  {
    bufs[i := bufs[i].(count := if bufs[i].count + delta >= 0 then bufs[i].count + delta else 0)]
  }

  /** From the chosen buffer's wake-up to the next sleep or the return: None is `goto repeat`. */
  datatype Outcome = Again | Became(bufs: seq<Buf>, pc: Pc)

  function Check(bufs: seq<Buf>, dev: nat, block: nat, bh: nat): Outcome
    requires bh < |bufs|
  {
    if bufs[bh].locked then Became(bufs, Chosen(dev, block, bh))
    else if bufs[bh].count > 0 then Again
    else if bufs[bh].dirty then Became(bufs, Chosen(dev, block, bh))
    else if Find(bufs, dev, block) >= 0 then Again
    else Became(bufs[bh := Buf(dev, block, false, false, 1, false)], Hold(dev, block, bh))
  }

  /** From `repeat:` to the next sleep or the return. `choice` is the buffer the scan of
      the free list settles on, when it settles on one. */
  function AtRepeat(bufs: seq<Buf>, dev: nat, block: nat, choice: int): Outcome {
    var r := Find(bufs, dev, block);
    if r >= 0 then
      Became(Counted(bufs, r, 1), if bufs[r].locked then HashWait(dev, block, r) else Hold(dev, block, r))
    else if 0 <= choice < |bufs| then Check(bufs, dev, block, choice)
    else Became(bufs, FreeWait(dev, block))
  }

  /** Some buffer caches the block. */
  ghost predicate Cached(bufs: seq<Buf>, dev: nat, block: nat) {
    exists i: nat :: i < |bufs| && Matches(bufs[i], dev, block)
  }

  lemma FindsCached(bufs: seq<Buf>, dev: nat, block: nat)
    ensures Find(bufs, dev, block) >= 0 <==> Cached(bufs, dev, block)
  {
    assert forall i: nat | i < |bufs| :: bufs[i] in bufs;
  }

  /** Woken with a chosen buffer, getblk goes on waiting for it exactly while it is locked, or
      unused and dirty; starts again exactly if it is unlocked and somebody uses it, or it is
      clean and the block is cached by now; and otherwise has it, as the block's buffer. */
  lemma CheckIs(bufs: seq<Buf>, dev: nat, block: nat, bh: nat)
    requires bh < |bufs|
    ensures var b, o := bufs[bh], Check(bufs, dev, block, bh);
      && (o == Became(bufs, Chosen(dev, block, bh)) <==> b.locked || (b.count == 0 && b.dirty))
      && (o == Again <==> !b.locked && (b.count > 0 || (!b.dirty && Cached(bufs, dev, block))))
      && (o == Became(bufs[bh := Buf(dev, block, false, false, 1, false)], Hold(dev, block, bh)) <==>
          !b.locked && b.count == 0 && !b.dirty && !Cached(bufs, dev, block))
  {
    FindsCached(bufs, dev, block);
  }

  /** From `repeat:` getblk has a buffer exactly if the block is in an unlocked one, which is
      counted once more, or in none and the one picked is clean and unlocked. */
  lemma RepeatIs(bufs: seq<Buf>, dev: nat, block: nat, choice: int)
    requires Unique(bufs) && dev != 0 && ScanOk(bufs, choice)
    ensures var o := AtRepeat(bufs, dev, block, choice);
      && o.Became?
      && (forall i: nat | i < |bufs| && Matches(bufs[i], dev, block) ::
            && o.bufs == bufs[i := bufs[i].(count := bufs[i].count + 1)]
            && o.pc == if bufs[i].locked then HashWait(dev, block, i) else Hold(dev, block, i))
      && (!Cached(bufs, dev, block) ==>
            if choice < 0 then o == Became(bufs, FreeWait(dev, block))
            else if bufs[choice].locked || bufs[choice].dirty then o == Became(bufs, Chosen(dev, block, choice))
            else o == Became(bufs[choice := Buf(dev, block, false, false, 1, false)], Hold(dev, block, choice)))
  {
    FindsCached(bufs, dev, block);
    if 0 <= choice < |bufs| {
      CheckIs(bufs, dev, block, choice);
    }
  }

  /** The scan picks an unused buffer, and none only when all are in use. */
  ghost predicate ScanOk(bufs: seq<Buf>, choice: int) {
    if 0 <= choice < |bufs| then bufs[choice].count == 0 else choice == -1 && forall b | b in bufs :: b.count > 0
  }

  datatype Step =
    | Get(p: nat, dev: nat, block: nat, choice: int)
    | Resume(p: nat, choice: int)
    | Release(p: nat)                       // brelse
    | Lock(b: nat)                          // ll_rw_block, sync_dev
    | Unlock(b: nat, uptodate: bool)        // end_request
    | Clean(b: nat)                         // add_request, invalidate_buffers
    | Dirty(p: nat)                         // a holder modifies its block

  /** One activation moves: an Again outcome leaves it to resume at `repeat:` at once. */
  ghost predicate Moved(s: State, t: State, p: nat, dev: nat, block: nat, o: Outcome, choice: int)
    requires p < |s.pcs|
  {
    match o
    case Became(bufs, pc) => t == State(bufs, s.pcs[p := pc])
    case Again => ScanOk(s.bufs, choice) && var r := AtRepeat(s.bufs, dev, block, choice);
      r.Became? && t == State(r.bufs, s.pcs[p := r.pc])
  }

  ghost predicate Next(s: State, t: State, step: Step) {
    match step
    case Get(p, dev, block, choice) =>
      p < |s.pcs| && s.pcs[p] == Idle && dev != 0 && Moved(s, t, p, dev, block, Again, choice)
    case Resume(p, choice) =>
      p < |s.pcs| &&
      (match s.pcs[p]
       case HashWait(dev, block, bh) =>
         bh < |s.bufs| && !s.bufs[bh].locked &&
         if Matches(s.bufs[bh], dev, block) then t == s.(pcs := s.pcs[p := Hold(dev, block, bh)])
         else Moved(s.(bufs := Counted(s.bufs, bh, -1)), t, p, dev, block, Again, choice)
       case FreeWait(dev, block) => Moved(s, t, p, dev, block, Again, choice)
       case Chosen(dev, block, bh) =>
         bh < |s.bufs| && !s.bufs[bh].locked && Moved(s, t, p, dev, block, Check(s.bufs, dev, block, bh), choice)
       case _ => false)
    case Release(p) =>
      p < |s.pcs| && s.pcs[p].Hold? && s.pcs[p].bh < |s.bufs| && !s.bufs[s.pcs[p].bh].locked &&
      t == State(Counted(s.bufs, s.pcs[p].bh, -1), s.pcs[p := Idle])
    case Lock(b) => b < |s.bufs| && !s.bufs[b].locked && t == s.(bufs := s.bufs[b := s.bufs[b].(locked := true)])
    case Unlock(b, u) => b < |s.bufs| && s.bufs[b].locked && t == s.(bufs := s.bufs[b := s.bufs[b].(locked := false, uptodate := u)])
    case Clean(b) => b < |s.bufs| && t == s.(bufs := s.bufs[b := s.bufs[b].(dirty := false)])
    case Dirty(p) =>
      p < |s.pcs| && s.pcs[p].Hold? && s.pcs[p].bh < |s.bufs| &&
      t == s.(bufs := s.bufs[s.pcs[p].bh := s.bufs[s.pcs[p].bh].(dirty := true)])
  }

  // ---- the invariant ------------------------------------------------------------

  predicate Holds(pc: Pc, b: nat) {
    (pc.Hold? || pc.HashWait?) && pc.bh == b
  }

  ghost function Holders(pcs: seq<Pc>, b: nat): set<nat> {
    set p | 0 <= p < |pcs| && Holds(pcs[p], b)
  }

  /** At most one buffer per block of a device. */
  ghost predicate Unique(bufs: seq<Buf>) {
    forall i, j | 0 <= i < j < |bufs| && bufs[i].dev != 0 :: bufs[i].dev != bufs[j].dev || bufs[i].block != bufs[j].block
  }

  /** b_count is the number of activations holding the buffer. */
  ghost predicate Exact(s: State) {
    forall b | 0 <= b < |s.bufs| :: s.bufs[b].count == |Holders(s.pcs, b)|
  }

  /** What an activation holds, or waits for with the count raised, is the block it asked for. */
  ghost predicate Faithful(s: State) {
    forall p | 0 <= p < |s.pcs| :: var pc := s.pcs[p];
      (pc.Hold? || pc.HashWait? ==> pc.bh < |s.bufs| && Matches(s.bufs[pc.bh], pc.dev, pc.block)) &&
      (pc != Idle ==> pc.dev != 0) && (pc.Chosen? ==> pc.bh < |s.bufs|)
  }

  ghost predicate Inv(s: State) {
    Unique(s.bufs) && Exact(s) && Faithful(s)
  }

  /** Two activations holding the same block hold the same buffer. */
  lemma OneCopy(s: State, p: nat, q: nat)
    requires Inv(s) && p < |s.pcs| && q < |s.pcs| && s.pcs[p].Hold? && s.pcs[q].Hold?
    requires s.pcs[p].dev == s.pcs[q].dev && s.pcs[p].block == s.pcs[q].block
    ensures s.pcs[p].bh == s.pcs[q].bh
  {
  }

  lemma HoldersChange(pcs: seq<Pc>, p: nat, pc: Pc, b: nat)
    requires p < |pcs|
    ensures |Holders(pcs[p := pc], b)| == |Holders(pcs, b)| - (if Holds(pcs[p], b) then 1 else 0) + (if Holds(pc, b) then 1 else 0)
  {
    var rest := Holders(pcs, b) - {p};
    assert Holders(pcs[p := pc], b) - {p} == rest;
    assert Holders(pcs, b) == if Holds(pcs[p], b) then rest + {p} else rest;
    assert Holders(pcs[p := pc], b) == if Holds(pc, b) then rest + {p} else rest;
  }

  /** A moving activation that holds nothing comes out holding at most what it got. */
  lemma MovedKeeps(s: State, t: State, p: nat, dev: nat, block: nat, o: Outcome, choice: int)
    requires Inv(s) && p < |s.pcs| && dev != 0 && !s.pcs[p].Hold? && !s.pcs[p].HashWait?
    requires o == Again || exists bh: nat :: bh < |s.bufs| && o == Check(s.bufs, dev, block, bh)
    requires Moved(s, t, p, dev, block, o, choice)
    ensures Inv(t)
    ensures t.pcs[p].Hold? ==> Matches(t.bufs[t.pcs[p].bh], dev, block) && !t.bufs[t.pcs[p].bh].locked
  {
    var pc := t.pcs[p];
    MovedExact(s, t, p, dev, block, o, choice);
    if pc.Hold? && Find(s.bufs, dev, block) < 0 {
      RecycledKeeps(s, t, p, dev, block, pc.bh);
    }
  }

  lemma MovedExact(s: State, t: State, p: nat, dev: nat, block: nat, o: Outcome, choice: int)
    requires Inv(s) && p < |s.pcs| && dev != 0 && !s.pcs[p].Hold? && !s.pcs[p].HashWait?
    requires o == Again || exists bh: nat :: bh < |s.bufs| && o == Check(s.bufs, dev, block, bh)
    requires Moved(s, t, p, dev, block, o, choice)
    ensures Exact(t)
  {
    forall b | 0 <= b < |t.bufs| ensures t.bufs[b].count == |Holders(t.pcs, b)| {
      HoldersChange(s.pcs, p, t.pcs[p], b);
    }
  }

  /** A buffer given to a block no buffer had: nobody held it, and the block is still there once. */
  lemma RecycledKeeps(s: State, t: State, p: nat, dev: nat, block: nat, bh: nat)
    requires Inv(s) && p < |s.pcs| && dev != 0 && bh < |s.bufs| && s.bufs[bh].count == 0 && Find(s.bufs, dev, block) < 0
    requires t == State(s.bufs[bh := Buf(dev, block, false, false, 1, false)], s.pcs[p := Hold(dev, block, bh)])
    ensures Unique(t.bufs) && Faithful(t)
  {
    assert |Holders(s.pcs, bh)| == 0;
    forall q | 0 <= q < |s.pcs| && q != p ensures !Holds(s.pcs[q], bh) {
      assert Holds(s.pcs[q], bh) ==> q in Holders(s.pcs, bh);
    }
    assert forall i | 0 <= i < |s.bufs| :: s.bufs[i] in s.bufs;
  }

  lemma ResumeKeeps(s: State, t: State, p: nat, choice: int)
    requires Inv(s) && Next(s, t, Resume(p, choice))
    ensures Inv(t)
  {
    match s.pcs[p]
    case HashWait(dev, block, bh) =>
      forall b | 0 <= b < |t.bufs| ensures t.bufs[b].count == |Holders(t.pcs, b)| {
        HoldersChange(s.pcs, p, Hold(dev, block, bh), b);
      }
    case FreeWait(dev, block) => MovedKeeps(s, t, p, dev, block, Again, choice);
    case Chosen(dev, block, bh) => MovedKeeps(s, t, p, dev, block, Check(s.bufs, dev, block, bh), choice);
    case _ =>
  }

  /** brelse never finds a zero count. */
  lemma ReleaseKeeps(s: State, t: State, p: nat)
    requires Inv(s) && Next(s, t, Release(p))
    ensures Inv(t) && s.bufs[s.pcs[p].bh].count > 0
  {
    var bh := s.pcs[p].bh;
    assert p in Holders(s.pcs, bh);
    assert |Holders(s.pcs, bh)| > 0;
    forall b | 0 <= b < |t.bufs| ensures t.bufs[b].count == |Holders(t.pcs, b)| {
      HoldersChange(s.pcs, p, Idle, b);
    }
  }

  /** Locking, cleaning and dirtying touch no identity, count or activation. */
  lemma FlagsKeep(s: State, t: State, b: nat)
    requires Inv(s) && b < |s.bufs| && b < |t.bufs| && t == s.(bufs := t.bufs) && t.bufs == s.bufs[b := t.bufs[b]]
    requires Matches(t.bufs[b], s.bufs[b].dev, s.bufs[b].block) && t.bufs[b].count == s.bufs[b].count
    ensures Inv(t)
  {
  }

  lemma NextKeeps(s: State, t: State, step: Step)
    requires Inv(s) && Next(s, t, step)
    ensures Inv(t)
  {
    match step
    case Get(p, dev, block, choice) => MovedKeeps(s, t, p, dev, block, Again, choice);
    case Resume(p, choice) => ResumeKeeps(s, t, p, choice);
    case Release(p) => ReleaseKeeps(s, t, p);
    case Lock(b) => FlagsKeep(s, t, b);
    case Unlock(b, u) => FlagsKeep(s, t, b);
    case Clean(b) => FlagsKeep(s, t, b);
    case Dirty(p) => FlagsKeep(s, t, s.pcs[p].bh);
  }

  // ---- every run ----------------------------------------------------------------

  /** buffer_init: no buffer has a device, none is in use. */
  ghost predicate Init(s: State) {
    (forall i | 0 <= i < |s.bufs| :: s.bufs[i].dev == 0 && s.bufs[i].count == 0) &&
    forall p | 0 <= p < |s.pcs| :: s.pcs[p] == Idle
  }

  ghost predicate IsRun(states: seq<State>, steps: seq<Step>) {
    |states| == |steps| + 1 && forall k | 0 <= k < |steps| :: Next(states[k], states[k + 1], steps[k])
  }

  /** Whatever the interleaving, at every point of a run there is at most one buffer per
      block, counts are exact, and every holder has the block it asked for. */
  lemma {:induction false} RunKeeps(states: seq<State>, steps: seq<Step>, k: nat)
    requires IsRun(states, steps) && Init(states[0]) && k < |states|
    ensures Inv(states[k])
    decreases k
  {
    if k == 0 {
      forall b ensures Holders(states[0].pcs, b) == {} {
      }
    } else {
      RunKeeps(states, steps, k - 1);
      assert Next(states[k - 1], states[k], steps[k - 1]);
      NextKeeps(states[k - 1], states[k], steps[k - 1]);
    }
  }

  /** The re-check in get_hash_table after the sleep never fails. */
  lemma RecheckSucceeds(s: State, t: State, p: nat, choice: int)
    requires Inv(s) && Next(s, t, Resume(p, choice)) && s.pcs[p].HashWait?
    ensures t.pcs[p] == Hold(s.pcs[p].dev, s.pcs[p].block, s.pcs[p].bh) && t.bufs == s.bufs
  {
  }

  /** A buffer in use keeps its identity through any step. */
  lemma HeldKeepsIdentity(s: State, t: State, step: Step, b: nat)
    requires Inv(s) && Next(s, t, step) && b < |s.bufs| && s.bufs[b].count > 0
    ensures |t.bufs| == |s.bufs| && Matches(t.bufs[b], s.bufs[b].dev, s.bufs[b].block)
  {
  }

  /** So does a locked one, used or not: what is queued for the disk stays that block's. */
  lemma LockedKeepsIdentity(s: State, t: State, step: Step, b: nat)
    requires Inv(s) && Next(s, t, step) && b < |s.bufs| && s.bufs[b].locked
    ensures |t.bufs| == |s.bufs| && Matches(t.bufs[b], s.bufs[b].dev, s.bufs[b].block)
    ensures !t.bufs[b].locked ==> step.Unlock? && step.b == b
  {
    match step
    case Resume(p, choice) =>
      match s.pcs[p] {
        case HashWait(dev, block, bh) => LockedStays(s.(bufs := Counted(s.bufs, bh, -1)), dev, block, choice, b);
        case FreeWait(dev, block) => LockedStays(s, dev, block, choice, b);
        case Chosen(dev, block, bh) => LockedStays(s, dev, block, choice, b);
        case _ =>
      }
    case Get(_, dev, block, choice) => LockedStays(s, dev, block, choice, b);
    case _ =>
  }

  lemma LockedStays(s: State, dev: nat, block: nat, choice: int, b: nat)
    requires b < |s.bufs| && s.bufs[b].locked
    ensures var r := AtRepeat(s.bufs, dev, block, choice);
      r.Became? ==> |r.bufs| == |s.bufs| && r.bufs[b] == s.bufs[b].(count := r.bufs[b].count)
  {
  }

  /** Over a whole run: while p holds bh, bh is p's block. */
  lemma HeldThroughout(states: seq<State>, steps: seq<Step>, p: nat, k: nat)
    requires IsRun(states, steps) && Init(states[0]) && k < |states| && p < |states[k].pcs| && states[k].pcs[p].Hold?
    ensures var pc := states[k].pcs[p];
      pc.bh < |states[k].bufs| && Matches(states[k].bufs[pc.bh], pc.dev, pc.block) && states[k].bufs[pc.bh].count > 0
  {
    RunKeeps(states, steps, k);
    var pc := states[k].pcs[p];
    assert p in Holders(states[k].pcs, pc.bh);
    assert |Holders(states[k].pcs, pc.bh)| > 0;
  }

  /** What getblk hands back: the buffer that already cached the block, with one more
      user, or a recycled one: unused, unlocked and clean before, counted once now. */
  ghost predicate Fresh(s: State, t: State, pc: Pc)
    requires pc.Hold?
  {
    && pc.bh < |s.bufs| == |t.bufs| && Matches(t.bufs[pc.bh], pc.dev, pc.block) && !t.bufs[pc.bh].locked
    && if exists i :: 0 <= i < |s.bufs| && Matches(s.bufs[i], pc.dev, pc.block)
       then s.bufs[pc.bh].(count := t.bufs[pc.bh].count) == t.bufs[pc.bh]
       else s.bufs[pc.bh].count == 0 && !s.bufs[pc.bh].locked && !s.bufs[pc.bh].dirty &&
            t.bufs[pc.bh] == Buf(pc.dev, pc.block, false, false, 1, false)
  }

  lemma MovedFresh(s: State, t: State, p: nat, dev: nat, block: nat, o: Outcome, choice: int)
    requires p < |s.pcs| && Moved(s, t, p, dev, block, o, choice) && t.pcs[p].Hold?
    requires o == Again || exists bh: nat :: bh < |s.bufs| && o == Check(s.bufs, dev, block, bh)
    ensures Fresh(s, t, t.pcs[p])
  {
    assert forall i | 0 <= i < |s.bufs| :: s.bufs[i] in s.bufs;
  }

  lemma Returned(s: State, t: State, step: Step, p: nat)
    requires Inv(s) && Next(s, t, step) && p < |s.pcs| && p < |t.pcs| && !s.pcs[p].Hold? && t.pcs[p].Hold?
    ensures Fresh(s, t, t.pcs[p])
  {
    match step
    case Get(_, dev, block, choice) => MovedFresh(s, t, p, dev, block, Again, choice);
    case Resume(_, choice) =>
      match s.pcs[p] {
        case HashWait(_, _, bh) => assert 0 <= bh < |s.bufs| && Matches(s.bufs[bh], t.pcs[p].dev, t.pcs[p].block);
        case FreeWait(dev, block) => MovedFresh(s, t, p, dev, block, Again, choice);
        case Chosen(dev, block, bh) => MovedFresh(s, t, p, dev, block, Check(s.bufs, dev, block, bh), choice);
        case _ =>
      }
    case _ =>
  }
}
