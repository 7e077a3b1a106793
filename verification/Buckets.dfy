/** The kernel allocator of lib/malloc.c on values: pages of equal slots, the first page
    with room in the smallest fitting bucket, and a page given back with its last object. */
module Buckets {

  const PAGE_SIZE: nat := 4096
  const SIZES: seq<nat> := [16, 32, 64, 128, 256, 512, 1024, 2048, 4096]

  /** A bucket: the slots still free, in free-list order, and the objects handed out. */
  datatype Bucket = Bucket(size: nat, free: seq<nat>, refcnt: int)

  /** The buckets by page, and for each entry of bucket_dir the pages on its chain. */
  datatype Heap = Heap(buckets: map<nat, Bucket>, chains: seq<seq<nat>>)

  predicate IsSize(size: nat) { size in SIZES }

  function Count(size: nat): nat
    requires IsSize(size)
  {
    PAGE_SIZE / size
  }

  function SlotAddr(page: nat, size: nat, k: nat): nat { page + k * size }

  ghost predicate IsSlot(page: nat, size: nat, a: nat)
    requires IsSize(size)
  {
    exists k: nat :: k < Count(size) && a == SlotAddr(page, size, k)
  }

  function PageOf(a: nat): nat { a - a % PAGE_SIZE }

  lemma SlotInPage(page: nat, size: nat, k: nat)
    requires IsSize(size) && page % PAGE_SIZE == 0 && k < Count(size)
    ensures page <= SlotAddr(page, size, k) && SlotAddr(page, size, k) + size <= page + PAGE_SIZE
    ensures PageOf(SlotAddr(page, size, k)) == page
  {
    assert (k + 1) * size <= Count(size) * size;
    assert Count(size) * size <= PAGE_SIZE;
    assert 0 <= k * size < PAGE_SIZE && (k + 1) * size == k * size + size;
  }

  lemma SlotsApart(page: nat, size: nat, k: nat, l: nat)
    requires k < l
    ensures SlotAddr(page, size, k) + size <= SlotAddr(page, size, l)
  {
    assert (k + 1) * size <= l * size && (k + 1) * size == k * size + size;
  }

  /** The free list of a new page. */
  function AllSlots(page: nat, size: nat): (s: seq<nat>)
    requires IsSize(size)
    ensures |s| == Count(size) && forall k | 0 <= k < |s| :: s[k] == SlotAddr(page, size, k)
  {
    seq(Count(size), k requires 0 <= k => SlotAddr(page, size, k))
  }

  ghost predicate NoDup(s: seq<nat>) {
    forall i, j | 0 <= i < j < |s| :: s[i] != s[j]
  }

  lemma AllSlotsNoDup(page: nat, size: nat)
    requires IsSize(size)
    ensures var s := AllSlots(page, size); NoDup(s) && forall a | a in s :: IsSlot(page, size, a)
  {
    var s := AllSlots(page, size);
    forall i, j | 0 <= i < j < |s| ensures s[i] != s[j] {
      SlotsApart(page, size, i, j);
    }
  }

  // ---- the invariant ------------------------------------------------------------------

  ghost predicate BucketShape(page: nat, b: Bucket) {
    && page > 0 && page % PAGE_SIZE == 0 && IsSize(b.size)
    && NoDup(b.free) && (forall a | a in b.free :: IsSlot(page, b.size, a))
    && b.refcnt + |b.free| == Count(b.size)
  }

  /** Between calls no bucket is without objects. */
  ghost predicate BucketOk(page: nat, b: Bucket) {
    BucketShape(page, b) && b.refcnt > 0
  }

  /** The pages on a chain are those with buckets of its size, once each. */
  ghost predicate ChainOk(h: Heap, i: nat)
    requires i < |h.chains| == |SIZES|
  {
    NoDup(h.chains[i]) && forall p: nat :: p in h.chains[i] <==> p in h.buckets && h.buckets[p].size == SIZES[i]
  }

  /** What holds even in the middle of malloc and free_s. */
  ghost predicate Shape(h: Heap) {
    && |h.chains| == |SIZES|
    && (forall p {:trigger BucketShape(p, h.buckets[p])} | p in h.buckets :: BucketShape(p, h.buckets[p]))
    && forall i: nat {:trigger ChainOk(h, i)} | i < |SIZES| :: ChainOk(h, i)
  }

  ghost predicate Inv(h: Heap) {
    && |h.chains| == |SIZES|
    && (forall p {:trigger BucketOk(p, h.buckets[p])} | p in h.buckets :: BucketOk(p, h.buckets[p]))
    && forall i: nat {:trigger ChainOk(h, i)} | i < |SIZES| :: ChainOk(h, i)
  }

  /** a is an object handed out and not given back. */
  ghost predicate Live(h: Heap, a: nat) {
    var p := PageOf(a);
    p in h.buckets && IsSize(h.buckets[p].size) && IsSlot(p, h.buckets[p].size, a) && a !in h.buckets[p].free
  }

  function SizeAt(h: Heap, a: nat): nat
    requires PageOf(a) in h.buckets
  {
    h.buckets[PageOf(a)].size
  }

  /** A slot lies in its page. */
  lemma SlotBounds(page: nat, size: nat, a: nat)
    requires IsSize(size) && page % PAGE_SIZE == 0 && IsSlot(page, size, a)
    ensures page <= a && a + size <= page + PAGE_SIZE && PageOf(a) == page
  {
    var k: nat :| k < Count(size) && a == SlotAddr(page, size, k);
    SlotInPage(page, size, k);
  }

  lemma SlotsDisjoint(page: nat, size: nat, a: nat, b: nat)
    requires IsSize(size) && IsSlot(page, size, a) && IsSlot(page, size, b) && a != b
    ensures a + size <= b || b + size <= a
  {
    var k: nat :| k < Count(size) && a == SlotAddr(page, size, k);
    var l: nat :| l < Count(size) && b == SlotAddr(page, size, l);
    if k < l { SlotsApart(page, size, k, l); }
    if l < k { SlotsApart(page, size, l, k); }
  }

  /** Slots of two pages are as far apart as the pages. */
  lemma PagesApart(p: nat, q: nat)
    requires p % PAGE_SIZE == 0 && q % PAGE_SIZE == 0 && p != q
    ensures p + PAGE_SIZE <= q || q + PAGE_SIZE <= p
  {
  }

  /** Live objects never overlap, and lie inside their page. */
  lemma LiveApart(h: Heap, a: nat, b: nat)
    requires Inv(h) && Live(h, a) && Live(h, b) && a != b
    ensures a + SizeAt(h, a) <= b || b + SizeAt(h, b) <= a
    ensures PageOf(a) <= a && a + SizeAt(h, a) <= PageOf(a) + PAGE_SIZE
  {
    var p, q := PageOf(a), PageOf(b);
    assert BucketOk(p, h.buckets[p]) && BucketOk(q, h.buckets[q]);
    SlotBounds(p, SizeAt(h, a), a);
    SlotBounds(q, SizeAt(h, b), b);
    if p == q {
      SlotsDisjoint(p, SizeAt(h, a), a, b);
    } else {
      PagesApart(p, q);
    }
  }

  /** Nor does a live object overlap the start of a free slot, where the free list's link is. */
  lemma LinkOutsideLive(h: Heap, a: nat, p: nat, f: nat)
    requires Inv(h) && Live(h, a) && p in h.buckets && f in h.buckets[p].free
    ensures f + 4 <= a || a + SizeAt(h, a) <= f
  {
    var q := PageOf(a);
    assert BucketOk(p, h.buckets[p]) && BucketOk(q, h.buckets[q]);
    SlotBounds(q, SizeAt(h, a), a);
    SlotBounds(p, h.buckets[p].size, f);
    if p == q {
      SlotsDisjoint(p, SizeAt(h, a), a, f);
    }
  }

  // ---- counting -------------------------------------------------------------------------

  ghost function Elems(s: seq<nat>): set<nat> {
    set a | a in s
  }

  ghost function LiveSet(page: nat, b: Bucket): set<nat>
    requires IsSize(b.size)
  {
    Elems(AllSlots(page, b.size)) - Elems(b.free)
  }

  lemma {:induction false} NoDupCard(s: seq<nat>)
    requires NoDup(s)
    ensures |Elems(s)| == |s|
    decreases |s|
  {
    if s != [] {
      NoDupCard(s[1..]);
      var rest := Elems(s[1..]);
      assert s[0] !in rest;
      assert Elems(s) == {s[0]} + rest;
    }
  }

  lemma CardDifference(a: set<nat>, b: set<nat>)
    requires b <= a
    ensures |a - b| == |a| - |b|
  {
    assert a == (a - b) + b;
  }

  lemma LiveSetCard(page: nat, b: Bucket)
    requires BucketOk(page, b)
    ensures |LiveSet(page, b)| == b.refcnt
  {
    AllSlotsNoDup(page, b.size);
    NoDupCard(AllSlots(page, b.size));
    NoDupCard(b.free);
    forall a | a in b.free ensures a in AllSlots(page, b.size) {
      InAllSlots(page, b.size, a);
    }
    CardDifference(Elems(AllSlots(page, b.size)), Elems(b.free));
  }

  /** refcnt is the number of live objects of the page. */
  lemma RefcntCountsLive(h: Heap, p: nat)
    requires Inv(h) && p in h.buckets
    ensures BucketOk(p, h.buckets[p]) && |LiveSet(p, h.buckets[p])| == h.buckets[p].refcnt
    ensures forall a: nat | PageOf(a) == p :: a in LiveSet(p, h.buckets[p]) <==> Live(h, a)
  {
    var b := h.buckets[p];
    assert BucketOk(p, b);
    LiveSetCard(p, b);
    forall a: nat | PageOf(a) == p ensures a in LiveSet(p, b) <==> Live(h, a) {
      InAllSlots(p, b.size, a);
    }
  }

  lemma InAllSlots(page: nat, size: nat, a: nat)
    requires IsSize(size)
    ensures a in AllSlots(page, size) <==> IsSlot(page, size, a)
  {
    var s := AllSlots(page, size);
    if IsSlot(page, size, a) {
      var k: nat :| k < Count(size) && a == SlotAddr(page, size, k);
      assert s[k] == a;
    }
  }

  // ---- malloc ---------------------------------------------------------------------------

  /** The first entry of bucket_dir from i on that is big enough; its end marker otherwise. */
  function DirFor(len: nat, i: nat): (r: nat)
    requires i <= |SIZES|
    ensures i <= r <= |SIZES| && (r < |SIZES| ==> SIZES[r] >= len)
    ensures forall k | i <= k < r :: SIZES[k] < len
    decreases |SIZES| - i
  {
    if i == |SIZES| || SIZES[i] >= len then i else DirFor(len, i + 1)
  }

  /** The first page on the chain with a free slot. */
  function FirstFree(h: Heap, chain: seq<nat>): (j: nat)
    requires forall p | p in chain :: p in h.buckets
    ensures j <= |chain| && (j < |chain| ==> h.buckets[chain[j]].free != [])
    ensures forall k | 0 <= k < j :: h.buckets[chain[k]].free == []
  {
    if chain == [] || h.buckets[chain[0]].free != [] then 0 else 1 + FirstFree(h, chain[1..])
  }

  function Take(b: Bucket): Bucket
    requires b.free != []
  {
    b.(free := b.free[1..], refcnt := b.refcnt + 1)
  }

  predicate Chained(h: Heap, i: nat) {
    i < |h.chains| && forall p | p in h.chains[i] :: p in h.buckets
  }

  /** malloc from the i-th bucket; `grant` is the page get_free_page would give. */
  function Malloc(h: Heap, i: nat, grant: nat): (Heap, nat)
    requires i < |SIZES| && Chained(h, i)
  {
    var chain := h.chains[i];
    var j := FirstFree(h, chain);
    if j < |chain| then
      (h.(buckets := h.buckets[chain[j] := Take(h.buckets[chain[j]])]), h.buckets[chain[j]].free[0])
    else
      var b := Bucket(SIZES[i], AllSlots(grant, SIZES[i]), 0);
      (Heap(h.buckets[grant := Take(b)], h.chains[i := [grant] + chain]), b.free[0])
  }

  predicate PageIsFree(h: Heap, grant: nat) {
    grant > 0 && grant % PAGE_SIZE == 0 && grant !in h.buckets
  }

  lemma SizesAreSorted(i: nat, j: nat)
    requires i < j < |SIZES|
    ensures SIZES[i] < SIZES[j]
  {
  }

  lemma TakeOld(h: Heap, i: nat, j: nat) returns (r: Heap, a: nat)
    requires Inv(h) && i < |SIZES| && j < |h.chains[i]| && h.chains[i][j] in h.buckets && h.buckets[h.chains[i][j]].free != []
    ensures var p := h.chains[i][j];
      r == h.(buckets := h.buckets[p := Take(h.buckets[p])]) && a == h.buckets[p].free[0]
    ensures Inv(r) && PageOf(a) in r.buckets && SizeAt(r, a) == SIZES[i]
    ensures !Live(h, a) && forall x: nat :: Live(r, x) <==> Live(h, x) || x == a
  {
    var p := h.chains[i][j];
    var b := h.buckets[p];
    assert ChainOk(h, i) && BucketOk(p, b) && p in h.chains[i];
    r, a := h.(buckets := h.buckets[p := Take(b)]), b.free[0];
    assert forall x | x in b.free[1..] :: x in b.free;
    assert BucketOk(p, Take(b));
    forall q | q in r.buckets ensures BucketOk(q, r.buckets[q]) {
      assert q != p ==> BucketOk(q, h.buckets[q]);
    }
    forall k: nat | k < |SIZES| ensures ChainOk(r, k) {
      assert ChainOk(h, k);
    }
    assert a in b.free;
    SlotBounds(p, b.size, a);
    assert a !in b.free[1..];
    assert forall x | x in b.free :: x == a || x in b.free[1..];
  }

  lemma TakeNew(h: Heap, i: nat, grant: nat) returns (r: Heap, a: nat)
    requires Inv(h) && i < |SIZES| && PageIsFree(h, grant)
    ensures var b := Bucket(SIZES[i], AllSlots(grant, SIZES[i]), 0);
      r == Heap(h.buckets[grant := Take(b)], h.chains[i := [grant] + h.chains[i]]) && a == b.free[0] == grant
    ensures Inv(r) && PageOf(a) in r.buckets && SizeAt(r, a) == SIZES[i]
    ensures !Live(h, a) && forall x: nat :: Live(r, x) <==> Live(h, x) || x == a
  {
    var size := SIZES[i];
    var b := Bucket(size, AllSlots(grant, size), 0);
    AllSlotsNoDup(grant, size);
    r, a := Heap(h.buckets[grant := Take(b)], h.chains[i := [grant] + h.chains[i]]), b.free[0];
    assert forall x | x in b.free[1..] :: x in b.free;
    assert BucketOk(grant, Take(b));
    forall q | q in r.buckets ensures BucketOk(q, r.buckets[q]) {
      assert q != grant ==> BucketOk(q, h.buckets[q]);
    }
    forall k: nat | k < |SIZES| ensures ChainOk(r, k) {
      assert ChainOk(h, k);
      if k < i { SizesAreSorted(k, i); }
      if i < k { SizesAreSorted(i, k); }
    }
    forall x: nat ensures Live(r, x) <==> Live(h, x) || x == a {
      InAllSlots(grant, size, x);
      assert x in b.free <==> x == a || x in b.free[1..];
      assert a !in b.free[1..];
    }
  }

  /** Some page of the chain has a free slot. */
  predicate HasRoom(h: Heap, i: nat) {
    Chained(h, i) && FirstFree(h, h.chains[i]) < |h.chains[i]|
  }

  /** Some page of the smallest objects that hold len bytes has a free slot. */
  ghost predicate RoomFor(h: Heap, len: nat) {
    exists p: nat :: p in h.buckets && h.buckets[p].free != [] && h.buckets[p].size >= len &&
      forall k | 0 <= k < |SIZES| && SIZES[k] >= len :: h.buckets[p].size <= SIZES[k]
  }

  lemma HasRoomIs(h: Heap, len: nat)
    requires Inv(h) && DirFor(len, 0) < |SIZES|
    ensures HasRoom(h, DirFor(len, 0)) <==> RoomFor(h, len)
  {
    var i := DirFor(len, 0);
    assert ChainOk(h, i);
    forall k | 0 <= k < |SIZES| && SIZES[k] >= len ensures SIZES[i] <= SIZES[k] {
      if i < k { SizesAreSorted(i, k); }
    }
    if HasRoom(h, i) {
      var p := h.chains[i][FirstFree(h, h.chains[i])];
      assert p in h.chains[i];
    }
    if RoomFor(h, len) {
      var p: nat :| p in h.buckets && h.buckets[p].free != [] && h.buckets[p].size >= len &&
        forall k | 0 <= k < |SIZES| && SIZES[k] >= len :: h.buckets[p].size <= SIZES[k];
      assert BucketOk(p, h.buckets[p]);
      var k: nat :| k < |SIZES| && SIZES[k] == h.buckets[p].size;
      assert h.buckets[p].size == SIZES[i] && p in h.chains[i];
      var j :| 0 <= j < |h.chains[i]| && h.chains[i][j] == p;
    }
  }

  /** Every request of up to a page has a size. */
  lemma SizeForIff(len: nat)
    ensures DirFor(len, 0) < |SIZES| <==> len <= 4096
  {
    assert SIZES[8] == 4096;
  }

  lemma FromDir(h: Heap, i: nat, grant: nat)
    requires Inv(h) && i < |SIZES| && (HasRoom(h, i) || PageIsFree(h, grant))
    ensures Chained(h, i)
    ensures var (r, a) := Malloc(h, i, grant);
      && Inv(r) && !Live(h, a) && PageOf(a) in r.buckets && SizeAt(r, a) == SIZES[i]
      && (forall x: nat :: Live(r, x) <==> Live(h, x) || x == a)
      && r.buckets.Keys == h.buckets.Keys + if HasRoom(h, i) then {} else {grant}
  {
    assert ChainOk(h, i);
    var j := FirstFree(h, h.chains[i]);
    if j < |h.chains[i]| {
      var r, a := TakeOld(h, i, j);
    } else {
      var r, a := TakeNew(h, i, grant);
    }
  }

  /** malloc: a new object, in a slot of the smallest size that fits; all others stay; and
      a page is taken exactly when every page of that size is full. */
  lemma MallocKeeps(h: Heap, len: nat, grant: nat)
    requires Inv(h) && DirFor(len, 0) < |SIZES| && (HasRoom(h, DirFor(len, 0)) || PageIsFree(h, grant))
    ensures Chained(h, DirFor(len, 0))
    ensures var i := DirFor(len, 0); var (r, a) := Malloc(h, i, grant);
      && Inv(r) && !Live(h, a) && PageOf(a) in r.buckets && SizeAt(r, a) == SIZES[i] >= len
      && (forall x: nat :: Live(r, x) <==> Live(h, x) || x == a)
      && r.buckets.Keys == h.buckets.Keys + if HasRoom(h, i) then {} else {grant}
    ensures forall k | 0 <= k < |SIZES| && SIZES[k] >= len :: SIZES[DirFor(len, 0)] <= SIZES[k]
  {
    var i := DirFor(len, 0);
    FromDir(h, i, grant);
    forall k | 0 <= k < |SIZES| && SIZES[k] >= len ensures SIZES[i] <= SIZES[k] {
      if i < k { SizesAreSorted(i, k); }
    }
  }

  // ---- free_s ---------------------------------------------------------------------------

  /** The first bucket_dir entry from i on whose size is not below the hint and whose chain
      has the page; the end marker, a panic, if there is none. */
  function FindPage(h: Heap, page: nat, size: int, i: nat): (r: nat)
    requires i <= |SIZES| == |h.chains|
    ensures i <= r <= |SIZES| && (r < |SIZES| ==> SIZES[r] >= size && page in h.chains[r])
    ensures forall k | i <= k < r :: SIZES[k] < size || page !in h.chains[k]
    decreases |SIZES| - i
  {
    if i == |SIZES| || (SIZES[i] >= size && page in h.chains[i]) then i else FindPage(h, page, size, i + 1)
  }

  /** free_s panics exactly when the page is no bucket, or one of objects below the hint. */
  lemma FindPageIff(h: Heap, page: nat, size: int)
    requires Inv(h)
    ensures var i := FindPage(h, page, size, 0);
      && (i < |SIZES| <==> page in h.buckets && h.buckets[page].size >= size)
      && (i < |SIZES| ==> h.buckets[page].size == SIZES[i])
  {
    var i := FindPage(h, page, size, 0);
    if i < |SIZES| {
      assert ChainOk(h, i);
    }
    if page in h.buckets {
      assert BucketOk(page, h.buckets[page]);
      var k: nat :| k < |SIZES| && SIZES[k] == h.buckets[page].size;
      assert ChainOk(h, k);
    }
  }

  function Without(s: seq<nat>, p: nat): seq<nat> {
    if s == [] then [] else if s[0] == p then s[1..] else [s[0]] + Without(s[1..], p)
  }

  lemma {:induction false} WithoutIs(s: seq<nat>, p: nat)
    requires NoDup(s)
    ensures NoDup(Without(s, p)) && forall x :: x in Without(s, p) <==> x in s && x != p
    decreases |s|
  {
    if s != [] {
      assert s[0] !in s[1..];
      assert forall x :: x in s <==> x == s[0] || x in s[1..];
      WithoutIs(s[1..], p);
    }
  }

  function GiveBack(b: Bucket, obj: nat): Bucket {
    b.(free := [obj] + b.free, refcnt := b.refcnt - 1)
  }

  /** free_s once the bucket is found, on chain i. */
  function Free(h: Heap, i: nat, obj: nat): Heap
    requires i < |h.chains| && PageOf(obj) in h.buckets
  {
    var p := PageOf(obj);
    var b := GiveBack(h.buckets[p], obj);
    if b.refcnt != 0 then h.(buckets := h.buckets[p := b])
    else Heap(h.buckets - {p}, h.chains[i := Without(h.chains[i], p)])
  }

  lemma FreeKept(h: Heap, i: nat, obj: nat)
    requires Inv(h) && Live(h, obj) && i < |SIZES| && SizeAt(h, obj) == SIZES[i] && h.buckets[PageOf(obj)].refcnt > 1
    ensures var r := Free(h, i, obj); Inv(r) && forall x: nat :: Live(r, x) <==> Live(h, x) && x != obj
  {
    var p := PageOf(obj);
    var b, r := h.buckets[p], Free(h, i, obj);
    assert BucketOk(p, b);
    assert forall x :: x in GiveBack(b, obj).free <==> x == obj || x in b.free;
    assert BucketOk(p, GiveBack(b, obj));
    forall q | q in r.buckets ensures BucketOk(q, r.buckets[q]) {
      assert q != p ==> BucketOk(q, h.buckets[q]);
    }
    forall k: nat | k < |SIZES| ensures ChainOk(r, k) {
      assert ChainOk(h, k);
    }
  }

  /** The last object of a page: the page goes. */
  lemma FreeLast(h: Heap, i: nat, obj: nat)
    requires Inv(h) && Live(h, obj) && i < |SIZES| && SizeAt(h, obj) == SIZES[i] && h.buckets[PageOf(obj)].refcnt == 1
    ensures var r := Free(h, i, obj); Inv(r) && forall x: nat :: Live(r, x) <==> Live(h, x) && x != obj
  {
    var p := PageOf(obj);
    var r := Free(h, i, obj);
    RefcntCountsLive(h, p);
    forall q | q in r.buckets ensures BucketOk(q, r.buckets[q]) {
      assert BucketOk(q, h.buckets[q]);
    }
    forall k: nat | k < |SIZES| ensures ChainOk(r, k) {
      assert ChainOk(h, k);
      if k == i {
        WithoutIs(h.chains[i], p);
      } else {
        if k < i { SizesAreSorted(k, i); } else { SizesAreSorted(i, k); }
      }
    }
    var s := LiveSet(p, h.buckets[p]);
    forall x: nat | Live(h, x) && PageOf(x) == p ensures x == obj {
      OnlyOne(s, x, obj);
    }
  }

  lemma OnlyOne(s: set<nat>, x: nat, y: nat)
    requires |s| == 1 && x in s && y in s
    ensures x == y
  {
    CardDifference(s, {x});
    assert y !in s - {x};
  }

  /** free_s: the object and nothing else is given back; its page goes, off its chain and
      out of the heap, exactly when it held no other. */
  lemma FreeKeeps(h: Heap, obj: nat, size: int)
    requires Inv(h) && Live(h, obj) && SizeAt(h, obj) >= size
    ensures var i := FindPage(h, PageOf(obj), size, 0);
      i < |SIZES| &&
      var r := Free(h, i, obj);
      && Inv(r) && (forall x: nat :: Live(r, x) <==> Live(h, x) && x != obj)
      && r.buckets.Keys == (if LiveSet(PageOf(obj), h.buckets[PageOf(obj)]) == {obj} then h.buckets.Keys - {PageOf(obj)} else h.buckets.Keys)
  {
    var p := PageOf(obj);
    FindPageIff(h, p, size);
    var i := FindPage(h, p, size, 0);
    RefcntCountsLive(h, p);
    var s := LiveSet(p, h.buckets[p]);
    if h.buckets[p].refcnt == 1 {
      FreeLast(h, i, obj);
      assert s == {obj} by {
        forall x | x in s ensures x == obj { OnlyOne(s, x, obj); }
      }
    } else {
      FreeKept(h, i, obj);
      assert s == {obj} ==> |s| == 1;
    }
  }

  // ---- every run ------------------------------------------------------------------------

  /** The heap and what the rest of the kernel holds: its objects and the sizes asked for. */
  datatype World = World(heap: Heap, held: map<nat, nat>)

  datatype Step = Alloc(len: nat, grant: nat) | Release(obj: nat, size: nat)

  ghost predicate Ok(w: World) {
    && Inv(w.heap)
    && (forall a: nat {:trigger Live(w.heap, a)} :: a in w.held <==> Live(w.heap, a))
    && forall a: nat {:trigger Live(w.heap, a)} | a in w.held :: Live(w.heap, a) && w.held[a] <= SizeAt(w.heap, a)
  }

  /** malloc of at most a page, from a page not in use; free_s of something held, with its
      size or 0 as the hint. */
  ghost predicate Enabled(w: World, s: Step) {
    match s
    case Alloc(len, grant) => len <= PAGE_SIZE && PageIsFree(w.heap, grant)
    case Release(obj, size) => obj in w.held && size <= w.held[obj]
  }

  lemma Fits(len: nat)
    requires len <= PAGE_SIZE
    ensures DirFor(len, 0) < |SIZES|
  {
    assert SIZES[8] >= len;
  }

  ghost function Apply(w: World, s: Step): World
    requires Ok(w) && Enabled(w, s)
  {
    match s
    case Alloc(len, grant) =>
      Fits(len); MallocKeeps(w.heap, len, grant);
      var (h, a) := Malloc(w.heap, DirFor(len, 0), grant);
      World(h, w.held[a := len])
    case Release(obj, size) =>
      assert Live(w.heap, obj);
      FreeKeeps(w.heap, obj, size);
      World(Free(w.heap, FindPage(w.heap, PageOf(obj), size, 0), obj), w.held - {obj})
  }

  /** A slot keeps its size as long as it is live. */
  lemma SizesStay(h: Heap, len: nat, grant: nat, x: nat)
    requires Inv(h) && PageIsFree(h, grant) && DirFor(len, 0) < |SIZES| && Chained(h, DirFor(len, 0)) && Live(h, x)
    ensures var r := Malloc(h, DirFor(len, 0), grant).0; PageOf(x) in r.buckets && SizeAt(r, x) == SizeAt(h, x)
  {
  }

  lemma StepKeeps(w: World, s: Step)
    requires Ok(w) && Enabled(w, s)
    ensures Ok(Apply(w, s))
  {
    match s
    case Alloc(len, grant) =>
      Fits(len);
      MallocKeeps(w.heap, len, grant);
      var r := Apply(w, s);
      forall a: nat | a in r.held ensures Live(r.heap, a) && r.held[a] <= SizeAt(r.heap, a) {
        if a in w.held {
          assert Live(w.heap, a);
          SizesStay(w.heap, len, grant, a);
        }
      }
    case Release(obj, size) =>
      assert Live(w.heap, obj);
      FreeKeeps(w.heap, obj, size);
      var r := Apply(w, s);
      forall a: nat | a in r.held ensures Live(r.heap, a) && r.held[a] <= SizeAt(r.heap, a) {
        assert Live(w.heap, a);
      }
  }

  ghost predicate IsRun(w: World, steps: seq<Step>)
    requires Ok(w)
    decreases |steps|
  {
    steps == [] || (Enabled(w, steps[0]) && (StepKeeps(w, steps[0]); IsRun(Apply(w, steps[0]), steps[1..])))
  }

  ghost function After(w: World, steps: seq<Step>): World
    requires Ok(w) && IsRun(w, steps)
    decreases |steps|
  {
    if steps == [] then w else StepKeeps(w, steps[0]); After(Apply(w, steps[0]), steps[1..])
  }

  lemma {:induction false} RunKeeps(w: World, steps: seq<Step>)
    requires Ok(w) && IsRun(w, steps)
    ensures Ok(After(w, steps))
    decreases |steps|
  {
    if steps != [] {
      StepKeeps(w, steps[0]);
      RunKeeps(Apply(w, steps[0]), steps[1..]);
    }
  }

  const EMPTY := World(Heap(map[], [[], [], [], [], [], [], [], [], []]), map[])

  /** Every run from boot starts here. */
  lemma EmptyIsOk()
    ensures Ok(EMPTY)
  {
    forall i: nat | i < |SIZES| ensures ChainOk(EMPTY.heap, i) {}
  }

  /** Over every run, what is held never overlaps, and a page is in use only while something
      on it is held. */
  lemma HeldApart(first: World, steps: seq<Step>)
    requires Ok(first) && IsRun(first, steps)
    ensures var w := After(first, steps);
      && (forall a: nat, b: nat {:trigger a in w.held, b in w.held} | a in w.held && b in w.held && a < b :: a + w.held[a] <= b)
      && forall p {:trigger p in w.heap.buckets} | p in w.heap.buckets :: exists a: nat :: a in w.held && PageOf(a) == p
  {
    var w := After(first, steps);
    RunKeeps(first, steps);
    forall a: nat, b: nat | a in w.held && b in w.held && a < b ensures a + w.held[a] <= b {
      assert Live(w.heap, a) && Live(w.heap, b);
      LiveApart(w.heap, a, b);
    }
    forall p | p in w.heap.buckets ensures exists a: nat :: a in w.held && PageOf(a) == p {
      RefcntCountsLive(w.heap, p);
      var s := LiveSet(p, w.heap.buckets[p]);
      var a :| a in s;
      InAllSlots(p, w.heap.buckets[p].size, a);
      SlotBounds(p, w.heap.buckets[p].size, a);
      assert Live(w.heap, a);
    }
  }
}
