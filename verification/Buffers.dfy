/** fs/buffer.c in its own form: an array of buffer heads threaded onto a circular free
    list and 307 hash chains, both doubly linked by index. */
module Buffers {
  import opened CacheProtocol

  const NR_HASH: nat := 307
  const NIL: int := -1

  /** struct buffer_head: the protocol's fields and the four links. */
  datatype Head = Head(buf: Buf, prev: int, next: int, prevFree: int, nextFree: int)

  function Xor(a: nat, b: nat): nat
    decreases a + b
  {
    if a == 0 && b == 0 then 0 else 2 * Xor(a / 2, b / 2) + (if a % 2 == b % 2 then 0 else 1)
  }

  function HashFn(dev: nat, block: nat): (h: nat)
    ensures h < NR_HASH
  {
    Xor(dev, block) % NR_HASH
  }

  function Bufs(hs: seq<Head>): (bs: seq<Buf>)
    ensures |bs| == |hs| && forall i | 0 <= i < |hs| :: bs[i] == hs[i].buf
  {
    seq(|hs|, i requires 0 <= i < |hs| => hs[i].buf)
  }

  ghost predicate Distinct(s: seq<nat>) {
    forall i, j | 0 <= i < j < |s| :: s[i] != s[j]
  }

  function Succ(k: nat, n: nat): nat {
    if k + 1 == n then 0 else k + 1
  }

  // ---- the circular free list ---------------------------------------------------

  function Pred(k: nat, n: nat): int {
    if k == 0 then n - 1 else k - 1
  }

  /** The k-th buffer of the ring is linked to its neighbours in it. */
  ghost predicate RingAt(hs: seq<Head>, ring: seq<nat>, k: nat)
    requires k < |ring|
  {
    ring[k] < |hs| && hs[ring[k]].nextFree == ring[Succ(k, |ring|)] && hs[ring[k]].prevFree == ring[Pred(k, |ring|)]
  }

  /** ring lists the free list from its head on. */
  ghost predicate RingOk(hs: seq<Head>, ring: seq<nat>, first: int) {
    && ring != [] && first == ring[0] && Distinct(ring)
    && forall k: nat {:trigger RingAt(hs, ring, k)} | k < |ring| :: RingAt(hs, ring, k)
  }

  /** Only buffer `out` is off the free list (none when out is NIL). */
  ghost predicate RingCovers(n: nat, ring: seq<nat>, out: int) {
    forall i: nat | i < n :: i in ring <==> i != out
  }

  function Without(s: seq<nat>, k: nat): seq<nat>
    requires k < |s|
  {
    s[..k] + s[k + 1..]
  }

  /** The free-list half of remove_from_queues. */
  function Unring(hs: seq<Head>, bh: nat): seq<Head>
    requires bh < |hs| && 0 <= hs[bh].prevFree < |hs| && 0 <= hs[bh].nextFree < |hs|
  {
    var p, n := hs[bh].prevFree, hs[bh].nextFree;
    var hs1 := hs[p := hs[p].(nextFree := n)];
    hs1[n := hs1[n].(prevFree := p)]
  }

  /** How positions of the shorter ring correspond to those of the longer one. */
  lemma WithoutAt(s: seq<nat>, k: nat, j: nat)
    requires k < |s| && j < |Without(s, k)|
    ensures Without(s, k)[j] == s[if j < k then j else j + 1]
  {
  }

  lemma UnringOk(hs: seq<Head>, ring: seq<nat>, first: int, k: nat)
    requires RingOk(hs, ring, first) && k < |ring| && |ring| >= 2
    ensures ring[k] < |hs| && 0 <= hs[ring[k]].prevFree < |hs| && 0 <= hs[ring[k]].nextFree < |hs|
    ensures RingOk(Unring(hs, ring[k]), Without(ring, k), if first == ring[k] then hs[ring[k]].nextFree else first)
  {
    var n, bh := |ring|, ring[k];
    var pk, sk := Pred(k, n), Succ(k, n);
    assert RingAt(hs, ring, k) && RingAt(hs, ring, pk) && RingAt(hs, ring, sk);
    var r, hs' := Without(ring, k), Unring(hs, bh);
    forall x: nat | x < |hs|
      ensures hs'[x].nextFree == (if x == ring[pk] then ring[sk] else hs[x].nextFree)
      ensures hs'[x].prevFree == if x == ring[sk] then ring[pk] else hs[x].prevFree
    {
    }
    forall j: nat | j < |r| ensures RingAt(hs', r, j) {
      UnringAt(hs, hs', ring, first, k, j);
    }
    forall i, j | 0 <= i < j < |r| ensures r[i] != r[j] {
      WithoutAt(ring, k, i);
      WithoutAt(ring, k, j);
    }
    WithoutAt(ring, k, 0);
  }

  lemma UnringAt(hs: seq<Head>, hs': seq<Head>, ring: seq<nat>, first: int, k: nat, j: nat)
    requires RingOk(hs, ring, first) && k < |ring| && |ring| >= 2 && j < |ring| - 1 && |hs'| == |hs|
    requires forall x: nat | x < |hs| ::
      hs'[x].nextFree == (if x == ring[Pred(k, |ring|)] then ring[Succ(k, |ring|)] else hs[x].nextFree) &&
      hs'[x].prevFree == if x == ring[Succ(k, |ring|)] then ring[Pred(k, |ring|)] else hs[x].prevFree
    ensures RingAt(hs', Without(ring, k), j)
  {
    var n, r := |ring|, Without(ring, k);
    var i := if j < k then j else j + 1;
    assert RingAt(hs, ring, i);
    WithoutAt(ring, k, j);
    WithoutAt(ring, k, Succ(j, n - 1));
    WithoutAt(ring, k, Pred(j, n - 1));
    assert r[Succ(j, n - 1)] == if i == Pred(k, n) then ring[Succ(k, n)] else ring[Succ(i, n)];
    assert r[Pred(j, n - 1)] == if i == Succ(k, n) then ring[Pred(k, n)] else ring[Pred(i, n)];
    assert i != Pred(k, n) ==> ring[i] != ring[Pred(k, n)];
    assert i != Succ(k, n) ==> ring[i] != ring[Succ(k, n)];
  }

  /** The free-list half of insert_into_queues: in front of the head, that is at the end. */
  function Enring(hs: seq<Head>, bh: nat, first: nat): seq<Head>
    requires bh < |hs| && first < |hs| && bh != first && 0 <= hs[first].prevFree < |hs|
  {
    var p := hs[first].prevFree;
    var hs1 := hs[bh := hs[bh].(nextFree := first, prevFree := p)];
    var hs2 := hs1[p := hs1[p].(nextFree := bh)];
    hs2[first := hs2[first].(prevFree := bh)]
  }

  lemma EnringOk(hs: seq<Head>, ring: seq<nat>, first: nat, bh: nat)
    requires RingOk(hs, ring, first) && bh < |hs| && bh !in ring
    ensures first < |hs| && 0 <= hs[first].prevFree < |hs| && RingOk(Enring(hs, bh, first), ring + [bh], first)
  {
    var n, r := |ring|, ring + [bh];
    assert RingAt(hs, ring, 0) && RingAt(hs, ring, n - 1);
    var hs' := Enring(hs, bh, first);
    forall j: nat | j < |r| ensures RingAt(hs', r, j) {
      if j < n {
        assert RingAt(hs, ring, j);
        assert j != 0 ==> ring[j] != ring[0];
        assert j != n - 1 ==> ring[j] != ring[n - 1];
        assert ring[j] in ring;
      }
    }
  }

  // ---- the hash chains ------------------------------------------------------------

  /** The k-th buffer of the chain is linked to its neighbours in it. */
  ghost predicate ChainAt(hs: seq<Head>, chain: seq<nat>, k: nat)
    requires k < |chain|
  {
    && chain[k] < |hs|
    && hs[chain[k]].next == (if k + 1 < |chain| then chain[k + 1] else NIL)
    && hs[chain[k]].prev == (if k > 0 then chain[k - 1] else NIL)
  }

  ghost predicate ChainOk(hs: seq<Head>, chain: seq<nat>, first: int) {
    && first == (if chain == [] then NIL else chain[0])
    && Distinct(chain)
    && forall k: nat {:trigger ChainAt(hs, chain, k)} | k < |chain| :: ChainAt(hs, chain, k)
  }

  function HashOf(b: Buf): nat {
    HashFn(b.dev, b.block)
  }

  /** Chain h holds exactly the buffers with a device whose hash is h, but for `out`. */
  ghost predicate ChainsOk(hs: seq<Head>, hash: seq<int>, chains: seq<seq<nat>>, out: int) {
    && |hash| == |chains| == NR_HASH
    && (forall h | 0 <= h < NR_HASH :: ChainOk(hs, chains[h], hash[h]))
    && (forall h: nat, i: nat {:trigger i in chains[h]} | h < NR_HASH && i in chains[h] :: i < |hs| && i != out && hs[i].buf.dev != 0 && HashOf(hs[i].buf) == h)
    && (forall i: nat | i < |hs| && i != out && hs[i].buf.dev != 0 :: i in chains[HashOf(hs[i].buf)])
    && (forall i: nat | i < |hs| && i != out && hs[i].buf.dev == 0 :: hs[i].prev == NIL && hs[i].next == NIL)
  }

  /** The hash half of remove_from_queues, on the links. */
  function Unchain(hs: seq<Head>, bh: nat): seq<Head>
    requires bh < |hs| && NIL <= hs[bh].prev < |hs| && NIL <= hs[bh].next < |hs|
  {
    var p, n := hs[bh].prev, hs[bh].next;
    var hs1 := if n != NIL then hs[n := hs[n].(prev := p)] else hs;
    if p != NIL then hs1[p := hs1[p].(next := n)] else hs1
  }

  lemma UnchainOne(hs: seq<Head>, chain: seq<nat>, first: int, k: nat)
    requires ChainOk(hs, chain, first) && k < |chain|
    ensures chain[k] < |hs| && NIL <= hs[chain[k]].prev < |hs| && NIL <= hs[chain[k]].next < |hs|
    ensures ChainOk(Unchain(hs, chain[k]), Without(chain, k), if first == chain[k] then hs[chain[k]].next else first)
  {
    var bh, r := chain[k], Without(chain, k);
    assert ChainAt(hs, chain, k);
    var p, n := hs[bh].prev, hs[bh].next;
    assert (k > 0 ==> ChainAt(hs, chain, k - 1)) && (k + 1 < |chain| ==> ChainAt(hs, chain, k + 1));
    var hs' := Unchain(hs, bh);
    forall x: nat | x < |hs|
      ensures hs'[x].next == (if x == p then n else hs[x].next)
      ensures hs'[x].prev == if x == n then p else hs[x].prev
    {
    }
    forall j: nat | j < |r| ensures ChainAt(hs', r, j) {
      UnchainAt(hs, hs', chain, first, k, j);
    }
    forall i, j | 0 <= i < j < |r| ensures r[i] != r[j] {
      WithoutAt(chain, k, i);
      WithoutAt(chain, k, j);
    }
    if r != [] { WithoutAt(chain, k, 0); }
  }

  lemma UnchainAt(hs: seq<Head>, hs': seq<Head>, chain: seq<nat>, first: int, k: nat, j: nat)
    requires ChainOk(hs, chain, first) && k < |chain| && j < |chain| - 1 && |hs'| == |hs| && chain[k] < |hs|
    requires forall x: nat | x < |hs| ::
      hs'[x].next == (if x == hs[chain[k]].prev then hs[chain[k]].next else hs[x].next) &&
      hs'[x].prev == if x == hs[chain[k]].next then hs[chain[k]].prev else hs[x].prev
    ensures ChainAt(hs', Without(chain, k), j)
  {
    var r := Without(chain, k);
    var i := if j < k then j else j + 1;
    assert ChainAt(hs, chain, i) && ChainAt(hs, chain, k);
    WithoutAt(chain, k, j);
    if j + 1 < |r| { WithoutAt(chain, k, j + 1); }
    if j > 0 { WithoutAt(chain, k, j - 1); }
    assert k > 0 && i != k - 1 ==> chain[i] != chain[k - 1];
    assert k + 1 < |chain| && i != k + 1 ==> chain[i] != chain[k + 1];
  }

  /** A buffer's neighbours are in its own chain. */
  lemma Neighbours(hs: seq<Head>, chain: seq<nat>, first: int, k: nat)
    requires ChainOk(hs, chain, first) && k < |chain| && chain[k] < |hs|
    ensures hs[chain[k]].prev != NIL ==> hs[chain[k]].prev in chain
    ensures hs[chain[k]].next != NIL ==> hs[chain[k]].next in chain
  {
    assert ChainAt(hs, chain, k);
    assert k > 0 ==> chain[k - 1] in chain;
    assert k + 1 < |chain| ==> chain[k + 1] in chain;
  }

  lemma WithoutMembers(s: seq<nat>, k: nat, i: nat)
    requires k < |s| && Distinct(s)
    ensures i in Without(s, k) <==> i in s && i != s[k]
  {
    if i in s && i != s[k] {
      var j :| 0 <= j < |s| && s[j] == i;
      assert Without(s, k)[if j < k then j else j - 1] == i;
    }
    if i in Without(s, k) {
      var j :| 0 <= j < |Without(s, k)| && Without(s, k)[j] == i;
      assert s[if j < k then j else j + 1] == i;
    }
  }

  lemma UnchainOk(hs: seq<Head>, hash: seq<int>, chains: seq<seq<nat>>, bh: nat) returns (chains': seq<seq<nat>>)
    requires ChainsOk(hs, hash, chains, NIL) && bh < |hs| && hs[bh].buf.dev != 0
    ensures NIL <= hs[bh].prev < |hs| && NIL <= hs[bh].next < |hs|
    ensures var h := HashOf(hs[bh].buf);
      ChainsOk(Unchain(hs, bh), hash[h := if hash[h] == bh then hs[bh].next else hash[h]], chains', bh)
  {
    var h := HashOf(hs[bh].buf);
    var k :| 0 <= k < |chains[h]| && chains[h][k] == bh;
    assert ChainOk(hs, chains[h], hash[h]);
    UnchainOne(hs, chains[h], hash[h], k);
    Neighbours(hs, chains[h], hash[h], k);
    var hs' := Unchain(hs, bh);
    assert forall i: nat | i < |hs| && i !in chains[h] :: hs'[i] == hs[i];
    forall i: nat ensures i in Without(chains[h], k) <==> i in chains[h] && i != bh {
      WithoutMembers(chains[h], k, i);
    }
    ChainReplaced(hs, hs', hash, chains, bh, Without(chains[h], k), if hash[h] == bh then hs[bh].next else hash[h], false);
    return chains[h := Without(chains[h], k)];
  }

  /** Relinking one chain, with bh taken out of it or put into it, keeps the others. */
  lemma ChainReplaced(hs: seq<Head>, hs': seq<Head>, hash: seq<int>, chains: seq<seq<nat>>, bh: nat, c: seq<nat>, first: int, put: bool)
    requires bh < |hs| == |hs'| && hs[bh].buf.dev != 0 && ChainsOk(hs, hash, chains, if put then bh else NIL)
    requires forall i: nat | i < |hs| :: hs'[i].buf == hs[i].buf
    requires var h := HashOf(hs[bh].buf);
      && (forall i: nat | i < |hs| && i !in chains[h] && i != bh :: hs'[i] == hs[i])
      && ChainOk(hs', c, first)
      && forall i: nat :: i in c <==> if put then i in chains[h] || i == bh else i in chains[h] && i != bh
    ensures var h := HashOf(hs[bh].buf); ChainsOk(hs', hash[h := first], chains[h := c], if put then NIL else bh)
  {
    var h := HashOf(hs[bh].buf);
    forall g | 0 <= g < NR_HASH && g != h ensures ChainOk(hs', chains[g], hash[g]) {
      assert ChainOk(hs, chains[g], hash[g]);
      forall j: nat | j < |chains[g]| ensures ChainAt(hs', chains[g], j) {
        assert ChainAt(hs, chains[g], j);
        assert chains[g][j] in chains[g];
        assert chains[g][j] !in chains[h];
      }
    }
    var hash', chains', out := hash[h := first], chains[h := c], if put then NIL else bh;
    forall g: nat, i: nat | g < NR_HASH && i in chains'[g] ensures i < |hs'| && i != out && hs'[i].buf.dev != 0 && HashOf(hs'[i].buf) == g {
      if g == h {
        assert i in c && (i in chains[h] || i == bh);
      } else {
        assert i in chains[g];
      }
    }
    forall i: nat | i < |hs'| && i != out && hs'[i].buf.dev != 0 ensures i in chains'[HashOf(hs'[i].buf)] {
      assert i == bh || i in chains[HashOf(hs[i].buf)];
    }
    forall i: nat | i < |hs'| && i != out && hs'[i].buf.dev == 0 ensures hs'[i].prev == NIL && hs'[i].next == NIL {
      assert i !in chains[h];
    }
  }

  /** The hash half of insert_into_queues: at the head of the chain. */
  function Enchain(hs: seq<Head>, bh: nat, first: int): seq<Head>
    requires bh < |hs| && NIL <= first < |hs|
  {
    var hs1 := hs[bh := hs[bh].(prev := NIL, next := first)];
    if first != NIL then hs1[first := hs1[first].(prev := bh)] else hs1
  }

  lemma EnchainOk(hs: seq<Head>, hash: seq<int>, chains: seq<seq<nat>>, bh: nat) returns (chains': seq<seq<nat>>)
    requires ChainsOk(hs, hash, chains, bh) && bh < |hs| && hs[bh].buf.dev != 0
    ensures var h := HashOf(hs[bh].buf);
      NIL <= hash[h] < |hs| && ChainsOk(Enchain(hs, bh, hash[h]), hash[h := bh], chains', NIL)
  {
    var h := HashOf(hs[bh].buf);
    assert ChainOk(hs, chains[h], hash[h]);
    var first := hash[h];
    assert first != NIL ==> ChainAt(hs, chains[h], 0) && chains[h][0] in chains[h];
    var hs' := Enchain(hs, bh, first);
    assert bh !in chains[h];
    var c := [bh] + chains[h];
    forall j: nat | j < |c| ensures ChainAt(hs', c, j) {
      if j > 0 {
        assert ChainAt(hs, chains[h], j - 1);
        assert chains[h][j - 1] in chains[h];
      }
    }
    assert ChainOk(hs', c, bh);
    ChainReplaced(hs, hs', hash, chains, bh, c, bh, true);
    return chains[h := c];
  }

  lemma SameChains(hs: seq<Head>, hs': seq<Head>, hash: seq<int>, chains: seq<seq<nat>>, out: int)
    requires ChainsOk(hs, hash, chains, out) && |hs'| == |hs|
    requires forall i: nat | i < |hs| && i != out :: hs'[i].buf == hs[i].buf && hs'[i].prev == hs[i].prev && hs'[i].next == hs[i].next
    ensures ChainsOk(hs', hash, chains, out)
  {
    forall g | 0 <= g < NR_HASH ensures ChainOk(hs', chains[g], hash[g]) {
      assert ChainOk(hs, chains[g], hash[g]);
      forall j: nat | j < |chains[g]| ensures ChainAt(hs', chains[g], j) {
        assert ChainAt(hs, chains[g], j) && chains[g][j] in chains[g];
      }
    }
  }

  lemma SameRing(hs: seq<Head>, hs': seq<Head>, ring: seq<nat>, first: int)
    requires RingOk(hs, ring, first) && |hs'| == |hs|
    requires forall i: nat | i < |hs| :: hs'[i].prevFree == hs[i].prevFree && hs'[i].nextFree == hs[i].nextFree
    ensures RingOk(hs', ring, first)
  {
    forall k: nat | k < |ring| ensures RingAt(hs', ring, k) {
      assert RingAt(hs, ring, k);
    }
  }

  /** With one buffer per block, any match is the match. */
  lemma FindIs(bs: seq<Buf>, dev: nat, block: nat, r: nat)
    requires Unique(bs) && dev != 0 && r < |bs| && Matches(bs[r], dev, block)
    ensures Find(bs, dev, block) == r
  {
    assert bs[r] in bs;
  }

  lemma FindNone(bs: seq<Buf>, dev: nat, block: nat)
    requires forall i | 0 <= i < |bs| :: !Matches(bs[i], dev, block)
    ensures Find(bs, dev, block) == -1
  {
  }

  function Badness(b: Buf): nat {
    (if b.dirty then 2 else 0) + (if b.locked then 1 else 0)
  }

  /** Among the first k buffers of the list, the one at j is the first unused one of the
      least badness. */
  ghost predicate BestAt(bs: seq<Buf>, ring: seq<nat>, k: nat, j: nat)
    requires j < k <= |ring| && forall i | 0 <= i < |ring| :: ring[i] < |bs|
  {
    && bs[ring[j]].count == 0
    && (forall i | 0 <= i < j :: bs[ring[i]].count == 0 ==> Badness(bs[ring[i]]) > Badness(bs[ring[j]]))
    && forall i | j <= i < k :: bs[ring[i]].count == 0 ==> Badness(bs[ring[i]]) >= Badness(bs[ring[j]])
  }

  /** What the scan of the free list settles on. */
  ghost predicate BestOf(bs: seq<Buf>, ring: seq<nat>, k: nat, r: int)
    requires k <= |ring| && forall i | 0 <= i < |ring| :: ring[i] < |bs|
  {
    if r == NIL then forall i | 0 <= i < k :: bs[ring[i]].count > 0
    else exists j: nat :: j < k && ring[j] == r && BestAt(bs, ring, k, j)
  }

  /** One round of the scan. */
  lemma ScanRound(bs: seq<Buf>, ring: seq<nat>, k: nat, r: int)
    requires k < |ring| && (forall i | 0 <= i < |ring| :: ring[i] < |bs|) && BestOf(bs, ring, k, r)
    ensures var b := bs[ring[k]];
      BestOf(bs, ring, k + 1, if b.count == 0 && (r == NIL || (0 <= r < |bs| && Badness(b) < Badness(bs[r]))) then ring[k] else r)
  {
    var b := bs[ring[k]];
    if r == NIL {
      if b.count == 0 {
        assert BestAt(bs, ring, k + 1, k);
      }
    } else {
      var j: nat :| j < k && ring[j] == r && BestAt(bs, ring, k, j);
      if b.count == 0 && Badness(b) < Badness(bs[r]) {
        assert BestAt(bs, ring, k + 1, k);
      } else {
        assert BestAt(bs, ring, k + 1, j);
      }
    }
  }

  /** Badness 0 cannot be beaten, so the scan may stop there. */
  lemma ScanStop(bs: seq<Buf>, ring: seq<nat>, k: nat, r: int)
    requires k <= |ring| && (forall i | 0 <= i < |ring| :: ring[i] < |bs|) && BestOf(bs, ring, k, r)
    requires 0 <= r < |bs| && Badness(bs[r]) == 0
    ensures BestOf(bs, ring, |ring|, r)
  {
    var j: nat :| j < k && ring[j] == r && BestAt(bs, ring, k, j);
    assert BestAt(bs, ring, |ring|, j);
  }

  class Cache {
    const heads: array<Head>
    const hash: array<int>
    var freeList: int
    ghost var ring: seq<nat>
    ghost var chains: seq<seq<nat>>

    /** The lists are well formed; buffer r may be off the free list and buffer c off its chain. */
    ghost predicate Linked(r: int, c: int)
      reads this, heads, hash
    {
      && heads.Length >= 2
      && RingOk(heads[..], ring, freeList) && RingCovers(heads.Length, ring, r)
      && ChainsOk(heads[..], hash[..], chains, c)
    }

    ghost predicate Valid()
      reads this, heads, hash
    {
      Linked(NIL, NIL) && Unique(Bufs(heads[..]))
    }

    /** buffer_init: n free buffers in a ring, empty chains. */
    constructor (n: nat)
      requires n >= 2
      ensures Valid() && fresh(heads) && fresh(hash) && heads.Length == n
      ensures forall i | 0 <= i < n :: heads[i].buf == Buf(0, 0, false, false, 0, false)
    {
      heads := new Head[n]((i: nat) => Head(Buf(0, 0, false, false, 0, false), NIL, NIL, i as int - 1, i + 1));
      hash := new int[NR_HASH](h => NIL);
      freeList := 0;
      ring := seq(n, i => i);
      chains := seq(NR_HASH, h => []);
      new;
      heads[0] := heads[0].(prevFree := n - 1);
      heads[n - 1] := heads[n - 1].(nextFree := 0);
      forall k: nat | k < n ensures RingAt(heads[..], ring, k) {
      }
      forall i: nat | i < n ensures i in ring {
        assert ring[i] == i;
      }
    }

    method FindBuffer(dev: nat, block: nat) returns (r: int)
      requires Valid() && dev != 0
      ensures r == Find(Bufs(heads[..]), dev, block)
    {
      var h := HashFn(dev, block);
      ghost var chain := chains[h];
      ghost var k := 0;
      r := hash[h];
      assert ChainOk(heads[..], chain, hash[h]);
      while r != NIL
        invariant 0 <= k <= |chain| && r == if k < |chain| then chain[k] else NIL
        invariant forall j | 0 <= j < k :: chain[j] < heads.Length && !Matches(heads[chain[j]].buf, dev, block)
        decreases |chain| - k
      {
        assert ChainAt(heads[..], chain, k);
        if heads[r].buf.dev == dev && heads[r].buf.block == block {
          FindIs(Bufs(heads[..]), dev, block, r);
          return;
        }
        r := heads[r].next;
        k := k + 1;
      }
      forall i: nat | i < heads.Length ensures !Matches(heads[i].buf, dev, block) {
        if heads[i].buf.dev != 0 {
          assert i in chains[HashOf(heads[..][i].buf)];
        }
      }
      FindNone(Bufs(heads[..]), dev, block);
    }

    /** First half of remove_from_queues. */
    method RemoveFromHash(bh: nat)
      requires Linked(NIL, NIL) && bh < heads.Length
      modifies heads, hash, this`chains
      ensures Linked(NIL, bh) && Bufs(heads[..]) == old(Bufs(heads[..]))
    {
      ghost var hs := heads[..];
      var b := heads[bh].buf;
      var h := HashFn(b.dev, b.block);
      assert ChainOk(hs, chains[h], hash[..][h]);
      if b.dev != 0 {
        chains := UnchainOk(hs, hash[..], chains, bh);
      } else {
        assert hash[..][h] == bh ==> chains[h][0] in chains[h];
      }
      var p, n := heads[bh].prev, heads[bh].next;
      if n != NIL {
        heads[n] := heads[n].(prev := p);
      }
      if p != NIL {
        heads[p] := heads[p].(next := n);
      }
      if hash[h] == bh {
        hash[h] := n;
      }
      assert heads[..] == Unchain(hs, bh);
      SameRing(hs, heads[..], ring, freeList);
    }

    /** Second half of remove_from_queues. */
    method RemoveFromFree(bh: nat)
      requires Linked(NIL, bh) && bh < heads.Length
      modifies heads, this`freeList, this`ring
      ensures Linked(bh, bh) && Bufs(heads[..]) == old(Bufs(heads[..]))
    {
      ghost var hs := heads[..];
      assert bh in ring;
      ghost var k :| 0 <= k < |ring| && ring[k] == bh;
      RingBig(heads.Length, ring);
      UnringOk(hs, ring, freeList, k);
      var p, n := heads[bh].prevFree, heads[bh].nextFree;
      heads[p] := heads[p].(nextFree := n);
      heads[n] := heads[n].(prevFree := p);
      if freeList == bh {
        freeList := n;
      }
      assert heads[..] == Unring(hs, bh);
      SameChains(hs, heads[..], hash[..], chains, bh);
      forall i: nat ensures i in Without(ring, k) <==> i in ring && i != bh {
        WithoutMembers(ring, k, i);
      }
      ring := Without(ring, k);
    }

    method RemoveFromQueues(bh: nat)
      requires Linked(NIL, NIL) && bh < heads.Length
      modifies heads, hash, this`freeList, this`ring, this`chains
      ensures Linked(bh, bh) && Bufs(heads[..]) == old(Bufs(heads[..]))
    {
      RemoveFromHash(bh);
      RemoveFromFree(bh);
    }

    /** First half of insert_into_queues. */
    method InsertIntoFree(bh: nat)
      requires Linked(bh, bh) && bh < heads.Length
      modifies heads, this`ring
      ensures Linked(NIL, bh) && Bufs(heads[..]) == old(Bufs(heads[..])) && ring == old(ring) + [bh]
    {
      ghost var hs := heads[..];
      assert bh !in ring;
      EnringOk(hs, ring, freeList, bh);
      var p := heads[freeList].prevFree;
      heads[bh] := heads[bh].(nextFree := freeList, prevFree := p);
      heads[p] := heads[p].(nextFree := bh);
      heads[freeList] := heads[freeList].(prevFree := bh);
      assert heads[..] == Enring(hs, bh, freeList);
      SameChains(hs, heads[..], hash[..], chains, bh);
      ring := ring + [bh];
    }

    /** Second half of insert_into_queues. */
    method InsertIntoHash(bh: nat)
      requires Linked(NIL, bh) && bh < heads.Length
      modifies heads, hash, this`chains
      ensures Linked(NIL, NIL) && Bufs(heads[..]) == old(Bufs(heads[..]))
    {
      ghost var hs := heads[..];
      heads[bh] := heads[bh].(prev := NIL, next := NIL);
      if heads[bh].buf.dev == 0 {
        SameRing(hs, heads[..], ring, freeList);
        SameChains(hs, heads[..], hash[..], chains, bh);
        return;
      }
      var h := HashFn(heads[bh].buf.dev, heads[bh].buf.block);
      chains := EnchainOk(hs, hash[..], chains, bh);
      var first := hash[h];
      heads[bh] := heads[bh].(next := first);
      hash[h] := bh;
      if first != NIL {              // the source stores through first unconditionally
        heads[first] := heads[first].(prev := bh);
      }
      assert heads[..] == Enchain(hs, bh, first);
      SameRing(hs, heads[..], ring, freeList);
    }

    method InsertIntoQueues(bh: nat)
      requires Linked(bh, bh) && bh < heads.Length
      modifies heads, hash, this`ring, this`chains
      ensures Linked(NIL, NIL) && Bufs(heads[..]) == old(Bufs(heads[..])) && ring == old(ring) + [bh]
    {
      InsertIntoFree(bh);
      InsertIntoHash(bh);
    }

    /** The scan of the free list in getblk. */
    method ScanFree() returns (bh: int)
      requires Valid()
      ensures (forall i | 0 <= i < |ring| :: ring[i] < heads.Length) && BestOf(Bufs(heads[..]), ring, |ring|, bh)
      ensures ScanOk(Bufs(heads[..]), bh)
    {
      ghost var bs := Bufs(heads[..]);
      forall i: nat | i < |ring| ensures ring[i] < |bs| {
        assert RingAt(heads[..], ring, i);
      }
      bh := NIL;
      var tmp := freeList;
      ghost var k := 0;
      while true
        invariant 0 <= k < |ring| && tmp == ring[k] && NIL <= bh < |bs| && BestOf(bs, ring, k, bh)
        decreases |ring| - k
      {
        ScanRound(bs, ring, k, bh);
        if heads[tmp].buf.count == 0 {
          if bh == NIL || Badness(heads[tmp].buf) < Badness(heads[bh].buf) {
            bh := tmp;
            if Badness(heads[tmp].buf) == 0 {
              ScanStop(bs, ring, k + 1, bh);
              break;
            }
          }
        }
        assert RingAt(heads[..], ring, k);
        assert k + 1 < |ring| ==> ring[k + 1] != ring[0];
        tmp := heads[tmp].nextFree;
        if tmp == freeList {
          break;
        }
        k := k + 1;
      }
      ScanCovers(bs, ring, bh);
    }

    method SetIdentity(bh: nat, b: Buf)
      requires Linked(bh, bh) && bh < heads.Length
      modifies heads
      ensures Linked(bh, bh) && Bufs(heads[..]) == old(Bufs(heads[..]))[bh := b]
    {
      ghost var hs := heads[..];
      heads[bh] := heads[bh].(buf := b);
      SameRing(hs, heads[..], ring, freeList);
      SameChains(hs, heads[..], hash[..], chains, bh);
    }

    /** getblk from a chosen buffer's wake-up on. */
    method Check(dev: nat, block: nat, bh: nat) returns (again: bool, pc: Pc)
      requires Valid() && dev != 0 && bh < heads.Length
      modifies heads, hash, this`freeList, this`ring, this`chains
      ensures Valid()
      ensures CacheProtocol.Check(old(Bufs(heads[..])), dev, block, bh) == if again then Again else Became(Bufs(heads[..]), pc)
      ensures again ==> Bufs(heads[..]) == old(Bufs(heads[..]))
      ensures pc.Hold? ==> ring != [] && ring[|ring| - 1] == bh
      ensures var bs := old(Bufs(heads[..]));
        && (again <==> !bs[bh].locked && (bs[bh].count > 0 || (!bs[bh].dirty && Cached(bs, dev, block))))
        && (!again && (bs[bh].locked || bs[bh].dirty) ==> pc == Chosen(dev, block, bh) && Bufs(heads[..]) == bs)
        && (!again && !bs[bh].locked && !bs[bh].dirty ==>
              pc == Hold(dev, block, bh) && Bufs(heads[..]) == bs[bh := Buf(dev, block, false, false, 1, false)])
    {
      ghost var bs := Bufs(heads[..]);
      CheckIs(bs, dev, block, bh);
      pc := Chosen(dev, block, bh);
      var b := heads[bh].buf;
      if b.locked {
        return false, pc;
      }
      if b.count > 0 {
        return true, pc;
      }
      if b.dirty {
        return false, pc;
      }
      var other := FindBuffer(dev, block);
      if other != NIL {
        return true, pc;
      }
      FindMeansNone(bs, dev, block);
      Claim(bh, dev, block);
      return false, Hold(dev, block, bh);
    }

    /** The buffer becomes the block's only copy, last in the free list. */
    method Claim(bh: nat, dev: nat, block: nat)
      requires Valid() && dev != 0 && bh < heads.Length
      requires forall i | 0 <= i < heads.Length :: !Matches(heads[i].buf, dev, block)
      modifies heads, hash, this`freeList, this`ring, this`chains
      ensures Valid() && ring != [] && ring[|ring| - 1] == bh
      ensures Bufs(heads[..]) == old(Bufs(heads[..]))[bh := Buf(dev, block, false, false, 1, false)]
    {
      RemoveFromQueues(bh);
      SetIdentity(bh, Buf(dev, block, false, false, 1, false));
      InsertIntoQueues(bh);
    }

    /** getblk from `repeat:` to the next sleep or the return. */
    method GetBlk(dev: nat, block: nat) returns (pc: Pc, ghost choice: int)
      requires Valid() && dev != 0
      modifies heads, hash, this`freeList, this`ring, this`chains
      ensures Valid() && ScanOk(old(Bufs(heads[..])), choice)
      ensures AtRepeat(old(Bufs(heads[..])), dev, block, choice) == Became(Bufs(heads[..]), pc)
      ensures var bs := old(Bufs(heads[..]));
        && (forall i: nat | i < |bs| && Matches(bs[i], dev, block) ::
              && Bufs(heads[..]) == bs[i := bs[i].(count := bs[i].count + 1)]
              && pc == if bs[i].locked then HashWait(dev, block, i) else Hold(dev, block, i))
        && (!Cached(bs, dev, block) ==>
              if choice < 0 then pc == FreeWait(dev, block) && Bufs(heads[..]) == bs
              else if bs[choice].locked || bs[choice].dirty then pc == Chosen(dev, block, choice) && Bufs(heads[..]) == bs
              else pc == Hold(dev, block, choice) && Bufs(heads[..]) == bs[choice := Buf(dev, block, false, false, 1, false)])
        && (!Cached(bs, dev, block) ==> (forall i | 0 <= i < |old(ring)| :: old(ring)[i] < |bs|) && BestOf(bs, old(ring), |old(ring)|, choice))
    {
      pc, choice := FromRepeat(dev, block);
      RepeatIs(old(Bufs(heads[..])), dev, block, choice);
    }

    method FromRepeat(dev: nat, block: nat) returns (pc: Pc, ghost choice: int)
      requires Valid() && dev != 0
      modifies heads, hash, this`freeList, this`ring, this`chains
      ensures Valid() && ScanOk(old(Bufs(heads[..])), choice)
      ensures AtRepeat(old(Bufs(heads[..])), dev, block, choice) == Became(Bufs(heads[..]), pc)
      ensures var bs := old(Bufs(heads[..])); !Cached(bs, dev, block) ==>
        (forall i | 0 <= i < |old(ring)| :: old(ring)[i] < |bs|) && BestOf(bs, old(ring), |old(ring)|, choice)
    {
      var bh := FindBuffer(dev, block);
      if bh != NIL {
        choice := SomeChoice(Bufs(heads[..]));
        BumpCount(bh, 1);
        if heads[bh].buf.locked {
          return HashWait(dev, block, bh), choice;
        }
        return Hold(dev, block, bh), choice;
      }
      bh := ScanFree();
      choice := bh;
      if bh == NIL {
        return FreeWait(dev, block), choice;
      }
      var again;
      again, pc := Check(dev, block, bh);
    }

    /** brelse, once the buffer is unlocked; false is the panic. */
    method Brelse(bh: nat) returns (ok: bool)
      requires Valid() && bh < heads.Length
      modifies heads
      ensures Valid() && ok == (old(heads[bh].buf.count) > 0) && Bufs(heads[..]) == Counted(old(Bufs(heads[..])), bh, -1)
    {
      ok := heads[bh].buf.count > 0;
      BumpCount(bh, -1);
    }

    /** b_count++ or b_count--. */
    method BumpCount(bh: nat, delta: int)
      requires Valid() && bh < heads.Length
      modifies heads
      ensures Valid() && Bufs(heads[..]) == Counted(old(Bufs(heads[..])), bh, delta)
    {
      ghost var hs := heads[..];
      var c := heads[bh].buf.count + delta;
      heads[bh] := heads[bh].(buf := heads[bh].buf.(count := if c >= 0 then c else 0));
      SameRing(hs, heads[..], ring, freeList);
      SameBufs(hs, heads[..], hash[..], chains);
    }
  }

  lemma SomeChoice(bs: seq<Buf>) returns (choice: int)
    ensures ScanOk(bs, choice)
  {
    if b :| 0 <= b < |bs| && bs[b].count == 0 {
      return b;
    }
    return NIL;
  }

  lemma FindMeansNone(bs: seq<Buf>, dev: nat, block: nat)
    requires Find(bs, dev, block) < 0
    ensures forall i | 0 <= i < |bs| :: !Matches(bs[i], dev, block)
  {
    assert forall i | 0 <= i < |bs| :: bs[i] in bs;
  }

  /** Counts and flags are not part of the lists. */
  lemma SameBufs(hs: seq<Head>, hs': seq<Head>, hash: seq<int>, chains: seq<seq<nat>>)
    requires ChainsOk(hs, hash, chains, NIL) && |hs'| == |hs|
    requires forall i: nat | i < |hs| :: Matches(hs'[i].buf, hs[i].buf.dev, hs[i].buf.block) && hs'[i].prev == hs[i].prev && hs'[i].next == hs[i].next
    ensures ChainsOk(hs', hash, chains, NIL)
  {
    forall g | 0 <= g < NR_HASH ensures ChainOk(hs', chains[g], hash[g]) {
      assert ChainOk(hs, chains[g], hash[g]);
      forall j: nat | j < |chains[g]| ensures ChainAt(hs', chains[g], j) {
        assert ChainAt(hs, chains[g], j) && chains[g][j] in chains[g];
      }
    }
    forall i: nat | i < |hs'| && hs'[i].buf.dev != 0 ensures i in chains[HashOf(hs'[i].buf)] {
      assert i in chains[HashOf(hs[i].buf)];
    }
  }

  lemma ScanCovers(bs: seq<Buf>, ring: seq<nat>, bh: int)
    requires RingCovers(|bs|, ring, NIL) && (forall i | 0 <= i < |ring| :: ring[i] < |bs|) && BestOf(bs, ring, |ring|, bh)
    requires NIL <= bh < |bs|
    ensures ScanOk(bs, bh)
  {
    if bh == NIL {
      forall b | b in bs ensures b.count > 0 {
        var i: nat :| i < |bs| && bs[i] == b;
        assert i in ring;
      }
    }
  }

  /** A ring over n >= 2 buffers has at least two. */
  lemma RingBig(n: nat, ring: seq<nat>)
    requires n >= 2 && RingCovers(n, ring, NIL)
    ensures |ring| >= 2
  {
    assert 0 in ring && 1 in ring;
  }
}
