/** lib/malloc.c in its own form: descriptors linked by index, free lists threaded through
    the free slots themselves. */
module KernelMalloc {
  import opened Buckets

  const NIL: int := -1
  /** Descriptors on a page: PAGE_SIZE / sizeof(struct bucket_desc). */
  const PER_PAGE: nat := 256
  const SPARE: nat := 9

  /** struct bucket_desc; freeptr 0 is NULL. */
  datatype Desc = Desc(page: nat, next: int, freeptr: nat, refcnt: int, size: nat)

  /** Descriptors, bucket_dir's chains, free_bucket_desc, and the words of memory. */
  datatype Store = Store(descs: seq<Desc>, dir: seq<int>, freeDesc: int, mem: map<nat, nat>)

  function Front(free: seq<nat>): nat { if free == [] then 0 else free[0] }

  ghost predicate Linked(mem: map<nat, nat>, free: seq<nat>, k: nat)
    requires k < |free|
  {
    free[k] in mem && mem[free[k]] == if k + 1 < |free| then free[k + 1] else 0
  }

  /** A free list in memory: each free slot holds the next one's address. */
  ghost predicate Threaded(mem: map<nat, nat>, freeptr: nat, free: seq<nat>) {
    freeptr == Front(free) && forall k: nat {:trigger Linked(mem, free, k)} | k < |free| :: Linked(mem, free, k)
  }

  function First(ids: seq<nat>): int { if ids == [] then NIL else ids[0] }

  function Next(ids: seq<nat>, j: nat): int { if j + 1 < |ids| then ids[j + 1] else NIL }

  /** The j-th descriptor of chain i describes the j-th page of the chain. */
  ghost predicate DescAt(st: Store, h: Heap, ids: seq<seq<nat>>, i: nat, j: nat)
    requires i < |h.chains| < |ids| && j < |ids[i]| == |h.chains[i]|
  {
    var page := h.chains[i][j];
    && ids[i][j] < |st.descs| && page in h.buckets
    && var d := st.descs[ids[i][j]];
    && d == Desc(page, Next(ids[i], j), d.freeptr, h.buckets[page].refcnt, h.buckets[page].size)
    && Threaded(st.mem, d.freeptr, h.buckets[page].free)
  }

  ghost predicate SpareAt(st: Store, ids: seq<nat>, k: nat)
    requires k < |ids|
  {
    ids[k] < |st.descs| && st.descs[ids[k]].next == Next(ids, k)
  }

  ghost predicate Distinct(ids: seq<seq<nat>>) {
    && (forall i: nat {:trigger NoDup(ids[i])} | i < |ids| :: NoDup(ids[i]))
    && forall i: nat, k: nat, d {:trigger d in ids[i], d in ids[k]} | i < |ids| && k < |ids| && i != k && d in ids[i] :: d !in ids[k]
  }

  ghost predicate HeadOk(st: Store, h: Heap, ids: seq<seq<nat>>, i: nat)
    requires i < |h.chains| <= |st.dir| && i < |ids|
  {
    |ids[i]| == |h.chains[i]| && st.dir[i] == First(ids[i])
  }

  /** The store represents heap h, with the descriptors ids on its chains and, last, spare. */
  ghost predicate Rep(st: Store, h: Heap, ids: seq<seq<nat>>) {
    && Shape(h) && |st.dir| == |SIZES| && |ids| == |SIZES| + 1 && Distinct(ids)
    && (forall i: nat {:trigger HeadOk(st, h, ids, i)} | i < |SIZES| :: HeadOk(st, h, ids, i))
    && (forall i: nat, j: nat {:trigger DescAt(st, h, ids, i, j)} | i < |SIZES| && HeadOk(st, h, ids, i) && j < |ids[i]| :: DescAt(st, h, ids, i, j))
    && st.freeDesc == First(ids[SPARE])
    && forall k: nat {:trigger SpareAt(st, ids[SPARE], k)} | k < |ids[SPARE]| :: SpareAt(st, ids[SPARE], k)
  }

  lemma PagesDistinct(h: Heap, i: nat, j: nat, k: nat, l: nat)
    requires Shape(h) && i < |SIZES| && k < |SIZES| && j < |h.chains[i]| && l < |h.chains[k]| && (i, j) != (k, l)
    ensures h.chains[i][j] != h.chains[k][l]
  {
    assert ChainOk(h, i) && ChainOk(h, k);
    assert h.chains[i][j] in h.chains[i] && h.chains[k][l] in h.chains[k];
    if i < k { SizesAreSorted(i, k); }
    if k < i { SizesAreSorted(k, i); }
  }

  lemma IdsDistinct(ids: seq<seq<nat>>, i: nat, j: nat, k: nat, l: nat)
    requires Distinct(ids) && i < |ids| && k < |ids| && j < |ids[i]| && l < |ids[k]| && (i, j) != (k, l)
    ensures ids[i][j] != ids[k][l]
  {
    assert NoDup(ids[i]) && ids[i][j] in ids[i] && ids[k][l] in ids[k];
  }

  // ---- malloc's steps -------------------------------------------------------------------

  lemma ThreadTail(mem: map<nat, nat>, freeptr: nat, free: seq<nat>)
    requires Threaded(mem, freeptr, free) && free != []
    ensures freeptr in mem && Threaded(mem, mem[freeptr], free[1..])
  {
    assert Linked(mem, free, 0);
    forall k: nat | k < |free[1..]| ensures Linked(mem, free[1..], k) {
      assert Linked(mem, free, k + 1);
    }
  }

  /** malloc's last three lines. */
  function TakeSlot(st: Store, d: nat): Store
    requires d < |st.descs| && st.descs[d].freeptr in st.mem
  {
    var b := st.descs[d];
    st.(descs := st.descs[d := b.(freeptr := st.mem[b.freeptr], refcnt := b.refcnt + 1)])
  }

  function Taken(h: Heap, p: nat): Heap
    requires p in h.buckets && h.buckets[p].free != []
  {
    h.(buckets := h.buckets[p := Take(h.buckets[p])])
  }

  lemma TakenShape(h: Heap, p: nat)
    requires Shape(h) && p in h.buckets && h.buckets[p].free != []
    ensures Shape(Taken(h, p))
  {
    var b, r := h.buckets[p], Taken(h, p);
    assert BucketShape(p, b);
    assert forall x | x in b.free[1..] :: x in b.free;
    forall q | q in r.buckets ensures BucketShape(q, r.buckets[q]) {
      assert BucketShape(q, h.buckets[q]);
    }
    forall k: nat | k < |SIZES| ensures ChainOk(r, k) {
      assert ChainOk(h, k);
    }
  }

  lemma TakeRep(st: Store, h: Heap, ids: seq<seq<nat>>, i: nat, j: nat)
    requires Rep(st, h, ids) && i < |SIZES| && HeadOk(st, h, ids, i) && j < |ids[i]| && DescAt(st, h, ids, i, j)
    requires h.buckets[h.chains[i][j]].free != []
    ensures var d, p := ids[i][j], h.chains[i][j];
      && st.descs[d].freeptr in st.mem && st.descs[d].freeptr == h.buckets[p].free[0]
      && Rep(TakeSlot(st, d), Taken(h, p), ids)
  {
    var d, p := ids[i][j], h.chains[i][j];
    ThreadTail(st.mem, st.descs[d].freeptr, h.buckets[p].free);
    TakenShape(h, p);
    var t, g := TakeSlot(st, d), Taken(h, p);
    forall k: nat | k < |SIZES| ensures HeadOk(t, g, ids, k) {
      assert HeadOk(st, h, ids, k);
    }
    forall k: nat, l: nat | k < |SIZES| && HeadOk(t, g, ids, k) && l < |ids[k]| ensures DescAt(t, g, ids, k, l) {
      assert HeadOk(st, h, ids, k) && DescAt(st, h, ids, k, l);
      if (k, l) != (i, j) {
        PagesDistinct(h, i, j, k, l);
        IdsDistinct(ids, i, j, k, l);
      }
    }
    SpareKept(st, t, ids, i, j);
  }

  /** Changing a descriptor in use leaves the spare list alone. */
  lemma SpareKept(st: Store, t: Store, ids: seq<seq<nat>>, i: nat, j: nat)
    requires Distinct(ids) && |ids| == |SIZES| + 1 && i < |SIZES| && j < |ids[i]| && |t.descs| == |st.descs|
    requires forall d | 0 <= d < |st.descs| && d != ids[i][j] :: t.descs[d] == st.descs[d]
    requires forall k: nat {:trigger SpareAt(st, ids[SPARE], k)} | k < |ids[SPARE]| :: SpareAt(st, ids[SPARE], k)
    ensures forall k: nat {:trigger SpareAt(t, ids[SPARE], k)} | k < |ids[SPARE]| :: SpareAt(t, ids[SPARE], k)
  {
    forall k: nat | k < |ids[SPARE]| ensures SpareAt(t, ids[SPARE], k) {
      assert SpareAt(st, ids[SPARE], k);
      IdsDistinct(ids, i, j, SPARE, k);
    }
  }

  /** A new, empty bucket in front of chain i, described by the first spare descriptor. */
  function NewHeap(h: Heap, i: nat, grant: nat): Heap
    requires i < |SIZES| == |h.chains|
  {
    Heap(h.buckets[grant := Bucket(SIZES[i], AllSlots(grant, SIZES[i]), 0)], h.chains[i := [grant] + h.chains[i]])
  }

  function NewStore(st: Store, i: nat, grant: nat, mem: map<nat, nat>): Store
    requires i < |SIZES| == |st.dir| && 0 <= st.freeDesc < |st.descs|
  {
    Store(st.descs[st.freeDesc := Desc(grant, st.dir[i], grant, 0, SIZES[i])],
      st.dir[i := st.freeDesc], st.descs[st.freeDesc].next, mem)
  }

  /** The first spare descriptor moved to the front of chain i. */
  function Moved(ids: seq<seq<nat>>, i: nat): seq<seq<nat>>
    requires i < |SIZES| == |ids| - 1 && ids[SPARE] != []
  {
    ids[i := [ids[SPARE][0]] + ids[i]][SPARE := ids[SPARE][1..]]
  }

  lemma NewShape(h: Heap, i: nat, grant: nat)
    requires Shape(h) && i < |SIZES| && PageIsFree(h, grant)
    ensures Shape(NewHeap(h, i, grant))
  {
    var r := NewHeap(h, i, grant);
    AllSlotsNoDup(grant, SIZES[i]);
    forall q | q in r.buckets ensures BucketShape(q, r.buckets[q]) {
      assert q != grant ==> BucketShape(q, h.buckets[q]);
    }
    forall k: nat | k < |SIZES| ensures ChainOk(r, k) {
      assert ChainOk(h, k);
      if k < i { SizesAreSorted(k, i); }
      if i < k { SizesAreSorted(i, k); }
    }
  }

  lemma MovedDistinct(ids: seq<seq<nat>>, i: nat)
    requires Distinct(ids) && i < |SIZES| == |ids| - 1 && ids[SPARE] != []
    ensures Distinct(Moved(ids, i))
  {
    var d, r := ids[SPARE][0], Moved(ids, i);
    assert d in ids[SPARE] && NoDup(ids[SPARE]) && NoDup(ids[i]);
    assert forall x | x in ids[SPARE][1..] :: x in ids[SPARE];
    assert d !in ids[i];
    assert NoDup([d] + ids[i]) && NoDup(ids[SPARE][1..]);
    forall k: nat | k < |r| ensures NoDup(r[k]) {
      assert NoDup(ids[k]);
      assert r[k] == if k == i then [d] + ids[i] else if k == SPARE then ids[SPARE][1..] else ids[k];
    }
    forall k: nat, l: nat, x | k < |r| && l < |r| && k != l && x in r[k] ensures x !in r[l] {
      var a, b := ids[k], ids[l];
      assert x in r[k] ==> x in a || (k == i && x == d);
      assert x in r[l] ==> x in b || (l == i && x == d);
      assert d !in ids[SPARE][1..];
      assert k < |SIZES| && k != i ==> d !in ids[k];
      assert l < |SIZES| && l != i ==> d !in ids[l];
    }
  }

  lemma ThreadKept(a: map<nat, nat>, b: map<nat, nat>, freeptr: nat, free: seq<nat>)
    requires Threaded(a, freeptr, free)
    requires forall x | x in free && x in a :: x in b && b[x] == a[x]
    ensures Threaded(b, freeptr, free)
  {
    forall k: nat | k < |free| ensures Linked(b, free, k) {
      assert Linked(a, free, k) && free[k] in free;
    }
  }

  lemma FreeInPage(h: Heap, p: nat, x: nat)
    requires Shape(h) && p in h.buckets && x in h.buckets[p].free
    ensures PageOf(x) == p
  {
    assert BucketShape(p, h.buckets[p]);
    SlotBounds(p, h.buckets[p].size, x);
  }

  lemma NewRep(st: Store, h: Heap, ids: seq<seq<nat>>, i: nat, grant: nat, mem: map<nat, nat>)
    requires Rep(st, h, ids) && i < |SIZES| && PageIsFree(h, grant) && ids[SPARE] != [] && SpareAt(st, ids[SPARE], 0)
    requires forall x | x in st.mem && PageOf(x) != grant :: x in mem && mem[x] == st.mem[x]
    requires Threaded(mem, grant, AllSlots(grant, SIZES[i]))
    ensures Rep(NewStore(st, i, grant, mem), NewHeap(h, i, grant), Moved(ids, i))
  {
    var t, g, m := NewStore(st, i, grant, mem), NewHeap(h, i, grant), Moved(ids, i);
    NewShape(h, i, grant);
    MovedDistinct(ids, i);
    assert HeadOk(st, h, ids, i);
    forall k: nat | k < |SIZES| ensures HeadOk(t, g, m, k) {
      assert HeadOk(st, h, ids, k);
    }
    forall k: nat, l: nat | k < |SIZES| && HeadOk(t, g, m, k) && l < |m[k]| ensures DescAt(t, g, m, k, l) {
      NewDescAt(st, h, ids, i, grant, mem, k, l);
    }
    forall k: nat | k < |m[SPARE]| ensures SpareAt(t, m[SPARE], k) {
      assert SpareAt(st, ids[SPARE], k + 1);
      IdsDistinct(ids, SPARE, 0, SPARE, k + 1);
    }
  }

  lemma NewDescAt(st: Store, h: Heap, ids: seq<seq<nat>>, i: nat, grant: nat, mem: map<nat, nat>, k: nat, l: nat)
    requires Rep(st, h, ids) && i < |SIZES| && PageIsFree(h, grant) && ids[SPARE] != [] && SpareAt(st, ids[SPARE], 0)
    requires forall x | x in st.mem && PageOf(x) != grant :: x in mem && mem[x] == st.mem[x]
    requires Threaded(mem, grant, AllSlots(grant, SIZES[i]))
    requires var t, g, m := NewStore(st, i, grant, mem), NewHeap(h, i, grant), Moved(ids, i);
      k < |SIZES| && HeadOk(t, g, m, k) && l < |m[k]|
    ensures DescAt(NewStore(st, i, grant, mem), NewHeap(h, i, grant), Moved(ids, i), k, l)
  {
    assert HeadOk(st, h, ids, i) && HeadOk(st, h, ids, k);
    if k != i || l > 0 {
      var o := if k == i then l - 1 else l;
      var page := h.chains[k][o];
      assert DescAt(st, h, ids, k, o);
      IdsDistinct(ids, SPARE, 0, k, o);
      forall x | x in h.buckets[page].free && x in st.mem ensures x in mem && mem[x] == st.mem[x] {
        FreeInPage(h, page, x);
      }
      ThreadKept(st.mem, mem, st.descs[ids[k][o]].freeptr, h.buckets[page].free);
    }
  }

  // ---- free_s's steps -------------------------------------------------------------------

  function GiveSlot(st: Store, d: nat, obj: nat): Store
    requires d < |st.descs|
  {
    var b := st.descs[d];
    st.(descs := st.descs[d := b.(freeptr := obj, refcnt := b.refcnt - 1)], mem := st.mem[obj := b.freeptr])
  }

  function Given(h: Heap, obj: nat): Heap
    requires PageOf(obj) in h.buckets
  {
    h.(buckets := h.buckets[PageOf(obj) := GiveBack(h.buckets[PageOf(obj)], obj)])
  }

  lemma GivenShape(h: Heap, obj: nat)
    requires Shape(h) && Live(h, obj)
    ensures Shape(Given(h, obj))
  {
    var p, r := PageOf(obj), Given(h, obj);
    var b := h.buckets[p];
    assert BucketShape(p, b);
    assert forall x | x in GiveBack(b, obj).free :: x == obj || x in b.free;
    forall q | q in r.buckets ensures BucketShape(q, r.buckets[q]) {
      assert BucketShape(q, h.buckets[q]);
    }
    forall k: nat | k < |SIZES| ensures ChainOk(r, k) {
      assert ChainOk(h, k);
    }
  }

  lemma ThreadCons(mem: map<nat, nat>, freeptr: nat, free: seq<nat>, obj: nat)
    requires Threaded(mem, freeptr, free) && obj !in free
    ensures Threaded(mem[obj := freeptr], obj, [obj] + free)
  {
    var m, f := mem[obj := freeptr], [obj] + free;
    forall k: nat | k < |f| ensures Linked(m, f, k) {
      if k > 0 {
        assert Linked(mem, free, k - 1);
      }
    }
  }

  lemma GiveRep(st: Store, h: Heap, ids: seq<seq<nat>>, i: nat, j: nat, obj: nat)
    requires Rep(st, h, ids) && Live(h, obj) && i < |SIZES| && HeadOk(st, h, ids, i) && j < |ids[i]| && DescAt(st, h, ids, i, j)
    requires h.chains[i][j] == PageOf(obj)
    ensures Rep(GiveSlot(st, ids[i][j], obj), Given(h, obj), ids)
  {
    var d, p := ids[i][j], PageOf(obj);
    GivenShape(h, obj);
    ThreadCons(st.mem, st.descs[d].freeptr, h.buckets[p].free, obj);
    var t, g := GiveSlot(st, d, obj), Given(h, obj);
    forall k: nat | k < |SIZES| ensures HeadOk(t, g, ids, k) {
      assert HeadOk(st, h, ids, k);
    }
    forall k: nat, l: nat | k < |SIZES| && HeadOk(t, g, ids, k) && l < |ids[k]| ensures DescAt(t, g, ids, k, l) {
      assert HeadOk(st, h, ids, k) && DescAt(st, h, ids, k, l);
      if (k, l) != (i, j) {
        PagesDistinct(h, i, j, k, l);
        IdsDistinct(ids, i, j, k, l);
        var q := h.chains[k][l];
        forall x | x in h.buckets[q].free && x in st.mem ensures x in t.mem && t.mem[x] == st.mem[x] {
          FreeInPage(h, q, x);
        }
        ThreadKept(st.mem, t.mem, st.descs[ids[k][l]].freeptr, h.buckets[q].free);
      }
    }
    SpareKept(st, t, ids, i, j);
  }

  /** The j-th descriptor of chain i moved to the front of the spare ones. */
  function Dropped(ids: seq<seq<nat>>, i: nat, j: nat): seq<seq<nat>>
    requires i < |SIZES| == |ids| - 1 && j < |ids[i]|
  {
    ids[SPARE := [ids[i][j]] + ids[SPARE]][i := ids[i][..j] + ids[i][j + 1..]]
  }

  function DropHeap(h: Heap, i: nat, j: nat): Heap
    requires i < |h.chains| && j < |h.chains[i]|
  {
    Heap(h.buckets - {h.chains[i][j]}, h.chains[i := h.chains[i][..j] + h.chains[i][j + 1..]])
  }

  function DropStore(st: Store, ids: seq<seq<nat>>, i: nat, j: nat): Store
    requires i < |SIZES| == |ids| - 1 == |st.dir| && j < |ids[i]| && ids[i][j] < |st.descs| && (j > 0 ==> ids[i][j - 1] < |st.descs|)
  {
    var d := ids[i][j];
    var next := st.descs[d].next;
    var u := if j == 0 then st.(dir := st.dir[i := next])
             else st.(descs := st.descs[ids[i][j - 1] := st.descs[ids[i][j - 1]].(next := next)]);
    u.(descs := u.descs[d := u.descs[d].(next := st.freeDesc)], freeDesc := d)
  }

  lemma {:induction false} WithoutAt(s: seq<nat>, j: nat)
    requires NoDup(s) && j < |s|
    ensures Without(s, s[j]) == s[..j] + s[j + 1..]
    decreases j
  {
    if j > 0 {
      WithoutAt(s[1..], j - 1);
    }
  }

  lemma CutNoDup(s: seq<nat>, j: nat)
    requires NoDup(s) && j < |s|
    ensures NoDup(s[..j] + s[j + 1..]) && forall x :: x in s[..j] + s[j + 1..] <==> x in s && x != s[j]
  {
    WithoutAt(s, j);
    WithoutIs(s, s[j]);
  }

  lemma DroppedDistinct(ids: seq<seq<nat>>, i: nat, j: nat)
    requires Distinct(ids) && i < |SIZES| == |ids| - 1 && j < |ids[i]|
    ensures Distinct(Dropped(ids, i, j))
  {
    var d, r := ids[i][j], Dropped(ids, i, j);
    assert NoDup(ids[i]) && NoDup(ids[SPARE]) && d in ids[i] && d !in ids[SPARE];
    CutNoDup(ids[i], j);
    assert NoDup([d] + ids[SPARE]);
    forall k: nat | k < |r| ensures NoDup(r[k]) {
      assert NoDup(ids[k]);
      assert r[k] == if k == i then ids[i][..j] + ids[i][j + 1..] else if k == SPARE then [d] + ids[SPARE] else ids[k];
    }
    forall k: nat, l: nat, x | k < |r| && l < |r| && k != l && x in r[k] ensures x !in r[l] {
      var a, b := ids[k], ids[l];
      assert x in r[k] ==> (x in a && (k == i ==> x != d)) || (k == SPARE && x == d);
      assert x in r[l] ==> (x in b && (l == i ==> x != d)) || (l == SPARE && x == d);
    }
  }

  lemma DropShape(h: Heap, i: nat, j: nat)
    requires Shape(h) && i < |SIZES| && j < |h.chains[i]|
    ensures Shape(DropHeap(h, i, j))
  {
    var r := DropHeap(h, i, j);
    assert ChainOk(h, i);
    CutNoDup(h.chains[i], j);
    forall q | q in r.buckets ensures BucketShape(q, r.buckets[q]) {
      assert BucketShape(q, h.buckets[q]);
    }
    assert h.chains[i][j] in h.chains[i];
    forall k: nat | k < |SIZES| ensures ChainOk(r, k) {
      assert ChainOk(h, k);
      if k < i { SizesAreSorted(k, i); }
      if i < k { SizesAreSorted(i, k); }
    }
  }

  lemma DropRep(st: Store, h: Heap, ids: seq<seq<nat>>, i: nat, j: nat)
    requires Rep(st, h, ids) && i < |SIZES| && HeadOk(st, h, ids, i) && j < |ids[i]| && DescAt(st, h, ids, i, j)
    requires j > 0 ==> DescAt(st, h, ids, i, j - 1)
    ensures Rep(DropStore(st, ids, i, j), DropHeap(h, i, j), Dropped(ids, i, j))
  {
    var t, g, m := DropStore(st, ids, i, j), DropHeap(h, i, j), Dropped(ids, i, j);
    DropShape(h, i, j);
    DroppedDistinct(ids, i, j);
    if j > 0 {
      IdsDistinct(ids, i, j - 1, i, j);
    }
    forall k: nat | k < |SIZES| ensures HeadOk(t, g, m, k) {
      assert HeadOk(st, h, ids, k);
    }
    forall k: nat, l: nat | k < |SIZES| && HeadOk(t, g, m, k) && l < |m[k]| ensures DescAt(t, g, m, k, l) {
      DropDescAt(st, h, ids, i, j, k, l);
    }
    forall k: nat | k < |m[SPARE]| ensures SpareAt(t, m[SPARE], k) {
      if k > 0 {
        assert SpareAt(st, ids[SPARE], k - 1);
        IdsDistinct(ids, i, j, SPARE, k - 1);
        if j > 0 { IdsDistinct(ids, i, j - 1, SPARE, k - 1); }
      }
    }
  }

  lemma DropDescAt(st: Store, h: Heap, ids: seq<seq<nat>>, i: nat, j: nat, k: nat, l: nat)
    requires Rep(st, h, ids) && i < |SIZES| && HeadOk(st, h, ids, i) && j < |ids[i]| && DescAt(st, h, ids, i, j)
    requires j > 0 ==> DescAt(st, h, ids, i, j - 1)
    requires var t, g, m := DropStore(st, ids, i, j), DropHeap(h, i, j), Dropped(ids, i, j);
      k < |SIZES| && HeadOk(t, g, m, k) && l < |m[k]|
    ensures DescAt(DropStore(st, ids, i, j), DropHeap(h, i, j), Dropped(ids, i, j), k, l)
  {
    assert HeadOk(st, h, ids, k);
    var o := if k == i && l >= j then l + 1 else l;
    assert DescAt(st, h, ids, k, o);
    PagesDistinct(h, i, j, k, o);
    IdsDistinct(ids, i, j, k, o);
    if j > 0 && (k, o) != (i, j - 1) {
      IdsDistinct(ids, i, j - 1, k, o);
    }
  }

  /** A page of new descriptors, chained, in front of the spare ones. */
  function MoreStore(st: Store): (t: Store)
    ensures |t.descs| == |st.descs| + PER_PAGE
  {
    var n := |st.descs|;
    st.(descs := st.descs + seq(PER_PAGE, k => Desc(0, if k + 1 < PER_PAGE then n + k + 1 else st.freeDesc, 0, 0, 0)), freeDesc := n)
  }

  function MoreIds(ids: seq<seq<nat>>, n: nat): seq<seq<nat>>
    requires |ids| == |SIZES| + 1
  {
    ids[SPARE := seq(PER_PAGE, k requires 0 <= k => n + k) + ids[SPARE]]
  }

  ghost predicate Below(ids: seq<seq<nat>>, n: nat) {
    forall i: nat, d {:trigger d in ids[i]} | i < |ids| && d in ids[i] :: d < n
  }

  lemma IdsBelow(st: Store, h: Heap, ids: seq<seq<nat>>)
    requires Rep(st, h, ids)
    ensures Below(ids, |st.descs|)
  {
    forall i: nat, d | i < |ids| && d in ids[i] ensures d < |st.descs| {
      var j :| 0 <= j < |ids[i]| && ids[i][j] == d;
      if i < |SIZES| {
        assert HeadOk(st, h, ids, i) && DescAt(st, h, ids, i, j);
      } else {
        assert SpareAt(st, ids[SPARE], j);
      }
    }
  }

  lemma MoreDistinct(ids: seq<seq<nat>>, n: nat)
    requires Distinct(ids) && |ids| == |SIZES| + 1 && Below(ids, n)
    ensures Distinct(MoreIds(ids, n))
  {
    var r, old9 := MoreIds(ids, n), ids[SPARE];
    assert NoDup(old9);
    forall i: nat | i < |r| ensures NoDup(r[i]) {
      assert NoDup(ids[i]);
      if i == SPARE {
        assert forall k | 0 <= k < |old9| :: old9[k] in ids[SPARE];
      }
    }
    forall i: nat, k: nat, d | i < |r| && k < |r| && i != k && d in r[i] ensures d !in r[k] {
      var a, b := ids[i], ids[k];
      assert d in a || (i == SPARE && d >= n);
      assert d in r[k] ==> d in b || (k == SPARE && d >= n);
    }
  }

  lemma MoreRep(st: Store, h: Heap, ids: seq<seq<nat>>)
    requires Rep(st, h, ids)
    ensures Rep(MoreStore(st), h, MoreIds(ids, |st.descs|))
  {
    var t, m, n := MoreStore(st), MoreIds(ids, |st.descs|), |st.descs|;
    IdsBelow(st, h, ids);
    MoreDistinct(ids, n);
    forall i: nat | i < |SIZES| ensures HeadOk(t, h, m, i) {
      assert HeadOk(st, h, ids, i);
    }
    forall i: nat, j: nat | i < |SIZES| && HeadOk(t, h, m, i) && j < |m[i]| ensures DescAt(t, h, m, i, j) {
      assert HeadOk(st, h, ids, i) && DescAt(st, h, ids, i, j);
    }
    forall k: nat | k < |m[SPARE]| ensures SpareAt(t, m[SPARE], k) {
      if k >= PER_PAGE {
        assert SpareAt(st, ids[SPARE], k - PER_PAGE) && ids[SPARE][k - PER_PAGE] < n;
      }
    }
  }

  /** A write by the holder of a live object into that object touches no free list. */
  lemma WriteRep(st: Store, h: Heap, ids: seq<seq<nat>>, a: nat, x: nat, v: nat)
    requires Rep(st, h, ids) && Inv(h) && Live(h, a) && a <= x && x + 4 <= a + SizeAt(h, a)
    ensures Rep(st.(mem := st.mem[x := v]), h, ids)
  {
    var t := st.(mem := st.mem[x := v]);
    forall i: nat | i < |SIZES| ensures HeadOk(t, h, ids, i) {
      assert HeadOk(st, h, ids, i);
    }
    forall i: nat, j: nat | i < |SIZES| && HeadOk(t, h, ids, i) && j < |ids[i]| ensures DescAt(t, h, ids, i, j) {
      assert HeadOk(st, h, ids, i) && DescAt(st, h, ids, i, j);
      var p := h.chains[i][j];
      forall y | y in h.buckets[p].free ensures y + 4 <= x || x + 4 <= y {
        LinkOutsideLive(h, a, p, y);
      }
      ThreadKept(st.mem, t.mem, st.descs[ids[i][j]].freeptr, h.buckets[p].free);
    }
    forall k: nat | k < |ids[SPARE]| ensures SpareAt(t, ids[SPARE], k) {
      assert SpareAt(st, ids[SPARE], k);
    }
  }

  lemma FreeIsNotNull(h: Heap, p: nat)
    requires Shape(h) && p in h.buckets
    ensures Front(h.buckets[p].free) == 0 <==> h.buckets[p].free == []
  {
    var b := h.buckets[p];
    assert BucketShape(p, b);
    if b.free != [] {
      assert b.free[0] in b.free;
      SlotBounds(p, b.size, b.free[0]);
    }
  }

  /** malloc is the taking of a slot, after a new bucket where there was no room. */
  lemma MallocIsTaken(h: Heap, i: nat, grant: nat)
    requires Inv(h) && i < |SIZES| && Chained(h, i)
    ensures var j := FirstFree(h, h.chains[i]);
      if j < |h.chains[i]| then
        Buckets.Malloc(h, i, grant) == (Taken(h, h.chains[i][j]), h.buckets[h.chains[i][j]].free[0])
      else
        var g := NewHeap(h, i, grant);
        g.chains[i][0] == grant && Buckets.Malloc(h, i, grant) == (Taken(g, grant), g.buckets[grant].free[0])
  {
    var b := Bucket(SIZES[i], AllSlots(grant, SIZES[i]), 0);
    assert h.buckets[grant := b][grant := Take(b)] == h.buckets[grant := Take(b)];
  }

  lemma MallocStaysOk(h: Heap, len: nat, grant: nat, i: nat)
    requires Inv(h) && i == DirFor(len, 0) < |SIZES| && Chained(h, i) && (grant != 0 ==> PageIsFree(h, grant))
    ensures HasRoom(h, i) || grant != 0 ==> Inv(Buckets.Malloc(h, i, grant).0)
    ensures !HasRoom(h, i) ==> |NewHeap(h, i, grant).chains[i]| == |h.chains[i]| + 1
  {
    if HasRoom(h, i) || grant != 0 {
      MallocKeeps(h, len, grant);
    }
  }

  lemma DropIsFree(h: Heap, i: nat, j: nat, obj: nat)
    requires Inv(h) && Live(h, obj) && i < |SIZES| && j < |h.chains[i]| && h.chains[i][j] == PageOf(obj)
    requires Given(h, obj).buckets[PageOf(obj)].refcnt == 0
    ensures DropHeap(Given(h, obj), i, j) == Free(h, i, obj)
  {
    assert ChainOk(h, i);
    WithoutAt(h.chains[i], j);
    var p := PageOf(obj);
    assert h.buckets[p := GiveBack(h.buckets[p], obj)] - {p} == h.buckets - {p};
  }

  // ---- the code's own form ------------------------------------------------------------

  class Allocator {
    var descs: seq<Desc>
    var dir: seq<int>
    var freeDesc: int
    var mem: map<nat, nat>
    ghost var heap: Heap
    ghost var ids: seq<seq<nat>>

    ghost function St(): Store
      reads this
    {
      Store(descs, dir, freeDesc, mem)
    }

    ghost predicate Valid()
      reads this
    {
      Rep(St(), heap, ids) && Inv(heap)
    }

    constructor ()
      ensures Valid() && heap == EMPTY.heap
    {
      descs := [];
      dir := [NIL, NIL, NIL, NIL, NIL, NIL, NIL, NIL, NIL];
      freeDesc := NIL;
      mem := map[];
      heap := EMPTY.heap;
      ids := [[], [], [], [], [], [], [], [], [], []];
      new;
      EmptyIsOk();
      forall i: nat | i < |SIZES| ensures HeadOk(St(), heap, ids, i) && ChainOk(heap, i) {}
      forall i: nat | i < |ids| ensures NoDup(ids[i]) {}
    }

    /** init_bucket_desc, given that get_free_page had a page. */
    method InitBucketDesc()
      requires Rep(St(), heap, ids)
      modifies this
      ensures Rep(St(), heap, ids) && St() == MoreStore(old(St())) && heap == old(heap)
      ensures ids == MoreIds(old(ids), |old(descs)|)
    {
      MoreRep(St(), heap, ids);
      ids := MoreIds(ids, |descs|);
      var first := |descs|;
      var i, bdesc := PER_PAGE, first;
      descs := descs + [Desc(0, NIL, 0, 0, 0)];
      while i > 1
        invariant 1 <= i <= PER_PAGE && bdesc == first + PER_PAGE - i && |descs| == bdesc + 1
        invariant descs[..first] == old(descs) && heap == old(heap) && mem == old(mem) && dir == old(dir) && freeDesc == old(freeDesc)
        invariant ids == MoreIds(old(ids), first)
        invariant forall k | first <= k < bdesc :: descs[k] == Desc(0, k + 1, 0, 0, 0)
        invariant descs[bdesc] == Desc(0, NIL, 0, 0, 0)
      {
        descs := descs[bdesc := descs[bdesc].(next := bdesc + 1)] + [Desc(0, NIL, 0, 0, 0)];
        bdesc := bdesc + 1;
        i := i - 1;
      }
      descs := descs[bdesc := descs[bdesc].(next := freeDesc)];
      freeDesc := first;
      assert descs == MoreStore(old(St())).descs;
    }

    /** The search of one chain for a page with a free slot. */
    method FindRoom(i: nat) returns (bdesc: int, ghost j: nat)
      requires Rep(St(), heap, ids) && i < |SIZES|
      ensures Chained(heap, i) && HeadOk(St(), heap, ids, i) && j == FirstFree(heap, heap.chains[i])
      ensures var k := FirstFree(heap, heap.chains[i]); bdesc == if k < |ids[i]| then ids[i][k] else NIL
    {
      assert HeadOk(St(), heap, ids, i) && ChainOk(heap, i);
      bdesc, j := dir[i], 0;
      ghost var chain := heap.chains[i];
      assert chain[0..] == chain;
      while bdesc != NIL && RoomAt(bdesc, i, j) == 0
        invariant j <= |ids[i]| && bdesc == (if j < |ids[i]| then ids[i][j] else NIL)
        invariant forall p | p in chain[j..] :: p in heap.buckets
        invariant FirstFree(heap, chain) == j + FirstFree(heap, chain[j..])
        decreases |ids[i]| - j
      {
        assert DescAt(St(), heap, ids, i, j);
        assert chain[j..][1..] == chain[j + 1..];
        bdesc := descs[bdesc].next;
        j := j + 1;
      }
    }

    /** A descriptor's freeptr: null when its page is full. */
    function RoomAt(bdesc: int, ghost i: nat, ghost j: nat): (f: nat)
      requires Rep(St(), heap, ids) && i < |SIZES| && HeadOk(St(), heap, ids, i) && j < |ids[i]| && bdesc == ids[i][j]
      reads this
      ensures DescAt(St(), heap, ids, i, j)
      ensures f == 0 <==> heap.buckets[heap.chains[i][j]].free == []
    {
      assert DescAt(St(), heap, ids, i, j);
      assert BucketShape(heap.chains[i][j], heap.buckets[heap.chains[i][j]]);
      FreeIsNotNull(heap, heap.chains[i][j]);
      descs[bdesc].freeptr
    }

    /** The links of a new page, from the first slot to the last. */
    method ChainSlots(page: nat, size: nat)
      requires IsSize(size) && page % PAGE_SIZE == 0
      modifies `mem
      ensures Threaded(mem, page, AllSlots(page, size))
      ensures forall x | x in old(mem) && PageOf(x) != page :: x in mem && mem[x] == old(mem[x])
    {
      var cp := page;
      var i := PAGE_SIZE / size;
      ghost var slots, k := AllSlots(page, size), 0;
      assert i > 0;
      while i > 1
        invariant 1 <= i && k + i == Count(size) && cp == SlotAddr(page, size, k)
        invariant forall l: nat {:trigger Linked(mem, slots, l)} | l < k :: Linked(mem, slots, l)
        invariant forall x | x in old(mem) && PageOf(x) != page :: x in mem && mem[x] == old(mem[x])
      {
        ghost var before := mem;
        mem := mem[cp := cp + size];
        SlotInPage(page, size, k);
        assert SlotAddr(page, size, k + 1) == cp + size by { assert (k + 1) * size == k * size + size; }
        forall l: nat | l < k + 1 ensures Linked(mem, slots, l) {
          if l < k { assert Linked(before, slots, l); SlotsApart(page, size, l, k); }
        }
        cp := cp + size;
        i := i - 1;
        k := k + 1;
      }
      ghost var before := mem;
      mem := mem[cp := 0];
      SlotInPage(page, size, k);
      forall l: nat | l < |slots| ensures Linked(mem, slots, l) {
        if l < k { assert Linked(before, slots, l); SlotsApart(page, size, l, k); }
      }
    }

    /** malloc's slow path: a page of new slots at the front of the chain. */
    method NewBucket(i: nat, grant: nat)
      requires Rep(St(), heap, ids) && i < |SIZES| && PageIsFree(heap, grant) && ids[SPARE] != []
      modifies this
      ensures Rep(St(), heap, ids) && heap == NewHeap(old(heap), i, grant)
      ensures ids == Moved(old(ids), i) && dir[i] == ids[i][0]
    {
      assert SpareAt(St(), ids[SPARE], 0) && HeadOk(St(), heap, ids, i);
      ghost var st := St();
      var bdesc := freeDesc;
      freeDesc := descs[bdesc].next;
      descs := descs[bdesc := descs[bdesc].(refcnt := 0)];
      descs := descs[bdesc := descs[bdesc].(size := SIZES[i])];
      descs := descs[bdesc := descs[bdesc].(page := grant, freeptr := grant)];
      ChainSlots(grant, SIZES[i]);
      NewRep(st, heap, ids, i, grant, mem);
      descs := descs[bdesc := descs[bdesc].(next := dir[i])];
      dir := dir[i := bdesc];
      assert St() == NewStore(st, i, grant, mem);
      heap, ids := NewHeap(heap, i, grant), Moved(ids, i);
    }

    /** malloc. get_free_page gives `grant`, 0 when memory is out, and a page for descriptors
        if `descPage`; retval 0 stands for the panics. */
    method Malloc(len: nat, grant: nat, descPage: bool) returns (retval: nat)
      requires Valid() && (grant != 0 ==> PageIsFree(heap, grant))
      modifies this
      ensures retval != 0 <==> len <= 4096 && (RoomFor(old(heap), len) || (grant != 0 && (old(freeDesc) != NIL || descPage)))
      ensures retval != 0 ==> var i := DirFor(len, 0);
        Valid() && i < |SIZES| && Chained(old(heap), i) && (heap, retval) == Buckets.Malloc(old(heap), i, grant)
    {
      var i := 0;
      while i < |SIZES| && SIZES[i] < len
        invariant 0 <= i <= |SIZES| && DirFor(len, 0) == DirFor(len, i)
      {
        i := i + 1;
      }
      SizeForIff(len);
      if i == |SIZES| {
        return 0;
      }
      HasRoomIs(heap, len);
      retval := MallocFrom(i, len, grant, descPage);
    }

    method MallocFrom(i: nat, ghost len: nat, grant: nat, descPage: bool) returns (retval: nat)
      requires Valid() && (grant != 0 ==> PageIsFree(heap, grant)) && i == DirFor(len, 0) < |SIZES|
      modifies this
      ensures retval != 0 <==> HasRoom(old(heap), i) || (grant != 0 && (old(freeDesc) != NIL || descPage))
      ensures retval != 0 ==> Valid() && Chained(old(heap), i) && (heap, retval) == Buckets.Malloc(old(heap), i, grant)
    {
      var bdesc: int;
      ghost var j: nat;
      bdesc, j := FindRoom(i);
      MallocIsTaken(heap, i, grant);
      MallocStaysOk(heap, len, grant, i);
      if bdesc == NIL {
        var ok := MakeRoom(i, grant, descPage);
        if !ok {
          return 0;
        }
        bdesc, j := dir[i], 0;
      }
      retval := TakeFrom(i, bdesc, j);
    }

    method MakeRoom(i: nat, grant: nat, descPage: bool) returns (ok: bool)
      requires Rep(St(), heap, ids) && i < |SIZES| && (grant != 0 ==> PageIsFree(heap, grant))
      modifies this
      ensures ok <==> grant != 0 && (old(freeDesc) != NIL || descPage)
      ensures ok ==> grant != 0 && Rep(St(), heap, ids) && heap == NewHeap(old(heap), i, grant)
      ensures ok ==> ids[i] != [] && dir[i] == ids[i][0] && |ids[i]| == |heap.chains[i]|
    {
      if freeDesc == NIL {
        if !descPage {
          return false;
        }
        InitBucketDesc();
      }
      if grant == 0 {
        return false;
      }
      NewBucket(i, grant);
      assert HeadOk(St(), heap, ids, i);
      ok := true;
    }

    method TakeFrom(i: nat, bdesc: int, ghost j: nat) returns (retval: nat)
      requires Rep(St(), heap, ids) && i < |SIZES| && j < |ids[i]| && bdesc == ids[i][j]
      requires |ids[i]| == |heap.chains[i]| && heap.chains[i][j] in heap.buckets && heap.buckets[heap.chains[i][j]].free != []
      modifies `descs, `heap
      ensures Rep(St(), heap, ids) && heap == Taken(old(heap), old(heap.chains[i][j]))
      ensures retval != 0 && retval == old(heap.buckets[heap.chains[i][j]].free[0])
    {
      assert HeadOk(St(), heap, ids, i) && DescAt(St(), heap, ids, i, j);
      TakeRep(St(), heap, ids, i, j);
      FreeIsNotNull(heap, heap.chains[i][j]);
      ghost var st := St();
      retval := descs[bdesc].freeptr;
      descs := descs[bdesc := descs[bdesc].(freeptr := mem[retval])];
      descs := descs[bdesc := descs[bdesc].(refcnt := descs[bdesc].refcnt + 1)];
      assert St() == TakeSlot(st, bdesc);
      heap := Taken(heap, heap.chains[i][j]);
    }

    /** The holder of the object at `a` writes a word inside it. */
    method Write(ghost a: nat, x: nat, v: nat)
      requires Valid() && Live(heap, a) && a <= x && x + 4 <= a + SizeAt(heap, a)
      modifies `mem
      ensures Valid() && mem == old(mem)[x := v]
    {
      WriteRep(St(), heap, ids, a, x, v);
      mem := mem[x := v];
    }

    /** free_s's search of the chains: the entry, the descriptor and the one before it. */
    method Find(page: nat, size: int) returns (i: nat, bdesc: int, prev: int, ghost j: nat)
      requires Valid()
      ensures i == FindPage(heap, page, size, 0)
      ensures i < |SIZES| ==> HeadOk(St(), heap, ids, i) && j < |ids[i]| && bdesc == ids[i][j] && heap.chains[i][j] == page
      ensures i < |SIZES| ==> prev == if j == 0 then NIL else ids[i][j - 1]
    {
      i, bdesc, prev, j := 0, NIL, NIL, 0;
      while i < |SIZES|
        invariant i <= |SIZES| && FindPage(heap, page, size, 0) == FindPage(heap, page, size, i)
        decreases |SIZES| - i
      {
        if SIZES[i] >= size {
          bdesc, prev, j := FindIn(i, page);
          if bdesc != NIL {
            assert heap.chains[i][j] in heap.chains[i];
            return;
          }
        }
        i := i + 1;
      }
    }

    method FindIn(i: nat, page: nat) returns (bdesc: int, prev: int, ghost j: nat)
      requires Valid() && i < |SIZES|
      ensures HeadOk(St(), heap, ids, i) && (bdesc == NIL <==> page !in heap.chains[i])
      ensures bdesc != NIL ==> j < |ids[i]| && bdesc == ids[i][j] && heap.chains[i][j] == page
      ensures bdesc != NIL ==> prev == if j == 0 then NIL else ids[i][j - 1]
    {
      assert HeadOk(St(), heap, ids, i);
      bdesc, prev, j := dir[i], NIL, 0;
      while bdesc != NIL
        invariant j <= |ids[i]| && bdesc == (if j < |ids[i]| then ids[i][j] else NIL)
        invariant prev == if j == 0 then NIL else ids[i][j - 1]
        invariant page !in heap.chains[i][..j]
        decreases |ids[i]| - j
      {
        assert DescAt(St(), heap, ids, i, j);
        if descs[bdesc].page == page {
          return;
        }
        prev := bdesc;
        bdesc := descs[bdesc].next;
        j := j + 1;
      }
    }

    /** The re-check after cli: whatever prev is by now, the descriptor before bdesc. */
    method CheckPrev(i: nat, bdesc: nat, prev: int, ghost j: nat) returns (p: int)
      requires Rep(St(), heap, ids) && i < |SIZES| && HeadOk(St(), heap, ids, i) && j < |ids[i]| && bdesc == ids[i][j]
      requires NIL <= prev < |descs|
      requires prev != NIL && descs[prev].next == bdesc ==> prev in ids[i]
      ensures p == if j == 0 then NIL else ids[i][j - 1]
    {
      p := prev;
      if (p != NIL && descs[p].next != bdesc) || (p == NIL && dir[i] != bdesc) {
        p := dir[i];
        ghost var k := 0;
        while p != NIL && NextOf(i, k, p) != bdesc
          invariant k <= |ids[i]| && p == (if k < |ids[i]| then ids[i][k] else NIL)
          invariant forall l | 0 <= l < k :: Next(ids[i], l) != bdesc
          decreases |ids[i]| - k
        {
          assert DescAt(St(), heap, ids, i, k);
          p := descs[p].next;
          k := k + 1;
        }
        if j > 0 { assert Next(ids[i], j - 1) == bdesc; }
        if p != NIL { SameNext(i, k, j); }
      } else if p != NIL {
        ghost var k :| 0 <= k < |ids[i]| && ids[i][k] == p;
        assert DescAt(St(), heap, ids, i, k);
        SameNext(i, k, j);
      } else if j > 0 {
        IdsDistinct(ids, i, 0, i, j);
      }
    }

    function NextOf(ghost i: nat, ghost k: nat, p: int): (n: int)
      requires Rep(St(), heap, ids) && i < |SIZES| && HeadOk(St(), heap, ids, i) && k < |ids[i]| && p == ids[i][k]
      reads this
      ensures n == Next(ids[i], k)
    {
      assert DescAt(St(), heap, ids, i, k);
      descs[p].next
    }

    lemma SameNext(i: nat, k: nat, j: nat)
      requires Rep(St(), heap, ids) && i < |SIZES| && k < |ids[i]| && j < |ids[i]| && Next(ids[i], k) == ids[i][j]
      ensures j == k + 1
    {
      if k + 1 < |ids[i]| && j != k + 1 {
        IdsDistinct(ids, i, k + 1, i, j);
      }
    }

    /** Off its chain and onto the spare list. */
    method Unlink(i: nat, bdesc: nat, prev: int, ghost j: nat)
      requires Rep(St(), heap, ids) && i < |SIZES| && HeadOk(St(), heap, ids, i) && j < |ids[i]| && bdesc == ids[i][j]
      requires NIL <= prev < |descs|
      requires prev != NIL && descs[prev].next == bdesc ==> prev in ids[i]
      modifies this
      ensures Rep(St(), heap, ids) && heap == DropHeap(old(heap), i, j)
    {
      assert DescAt(St(), heap, ids, i, j);
      assert j > 0 ==> DescAt(St(), heap, ids, i, j - 1);
      DropRep(St(), heap, ids, i, j);
      ghost var st := St();
      var p := CheckPrev(i, bdesc, prev, j);
      if p != NIL {
        descs := descs[p := descs[p].(next := descs[bdesc].next)];
      } else {
        dir := dir[i := descs[bdesc].next];
      }
      descs := descs[bdesc := descs[bdesc].(next := freeDesc)];
      freeDesc := bdesc;
      assert St() == DropStore(st, ids, i, j) by { if j > 0 { IdsDistinct(ids, i, j - 1, i, j); } }
      heap, ids := DropHeap(heap, i, j), Dropped(ids, i, j);
    }

    /** free_s of a live object. `freed` is the page for free_page, 0 if none; false in ok
        is the panic for an address malloc never gave. */
    method FreeS(obj: nat, size: int) returns (ok: bool, freed: nat)
      requires Valid() && (PageOf(obj) in heap.buckets && SizeAt(heap, obj) >= size ==> Live(heap, obj))
      modifies this
      ensures Valid() && ok == (PageOf(obj) in old(heap).buckets && SizeAt(old(heap), obj) >= size)
      ensures ok ==> var i := FindPage(old(heap), PageOf(obj), size, 0); i < |SIZES| && heap == Free(old(heap), i, obj)
      ensures freed == if ok && PageOf(obj) !in heap.buckets then PageOf(obj) else 0
      ensures !ok ==> heap == old(heap) && St() == old(St())
    {
      var page := obj - obj % PAGE_SIZE;
      var i: nat, bdesc: int, prev: int;
      ghost var j: nat;
      i, bdesc, prev, j := Find(page, size);
      FindPageIff(heap, page, size);
      if i == |SIZES| {
        return false, 0;
      }
      ok := true;
      ghost var h := heap;
      FreeKeeps(h, obj, size);
      PrevIsListed(i, j, prev);
      Give(i, bdesc, j, obj);
      freed := 0;
      if descs[bdesc].refcnt == 0 {
        freed := page;
        DropIsFree(h, i, j, obj);
        Unlink(i, bdesc, prev, j);
      }
    }

    method Give(i: nat, bdesc: nat, ghost j: nat, obj: nat)
      requires Rep(St(), heap, ids) && i < |SIZES| && HeadOk(St(), heap, ids, i) && j < |ids[i]| && bdesc == ids[i][j]
      requires heap.chains[i][j] == PageOf(obj) && Live(heap, obj)
      modifies `descs, `mem, `heap
      ensures Rep(St(), heap, ids) && heap == Given(old(heap), obj) && HeadOk(St(), heap, ids, i)
      ensures bdesc < |descs| == |old(descs)| && descs[bdesc].refcnt == heap.buckets[PageOf(obj)].refcnt
    {
      assert DescAt(St(), heap, ids, i, j);
      GiveRep(St(), heap, ids, i, j, obj);
      ghost var st := St();
      mem := mem[obj := descs[bdesc].freeptr];
      descs := descs[bdesc := descs[bdesc].(freeptr := obj)];
      descs := descs[bdesc := descs[bdesc].(refcnt := descs[bdesc].refcnt - 1)];
      assert St() == GiveSlot(st, bdesc, obj);
      heap := Given(heap, obj);
    }

    lemma PrevIsListed(i: nat, j: nat, prev: int)
      requires Rep(St(), heap, ids) && i < |SIZES| && HeadOk(St(), heap, ids, i) && j < |ids[i]|
      requires prev == if j == 0 then NIL else ids[i][j - 1]
      ensures NIL <= prev < |descs| && (prev != NIL ==> prev in ids[i])
    {
      if j > 0 {
        assert DescAt(St(), heap, ids, i, j - 1);
      }
    }
  }
}
