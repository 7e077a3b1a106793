/** truncate.c: a file gives back its own tree, except for blocks whose buffers others have
    counted and what hangs on index blocks that cannot be read. truncate can sleep between
    its calls of bread and free_block: `bad` is the blocks whose bread fails, `seen` the blocks
    whose buffer is counted when free_block comes to them. */
module Truncation {
  import opened Zones
  import opened ZoneTree

  /** A block read as 512 zone numbers. */
  function Pointers(b: Block): (zs: seq<Zone>)
    ensures |zs| == POINTERS && forall k: nat | k < POINTERS :: zs[k] == Ptr(b, k)
  {
    seq(POINTERS, k requires 0 <= k < POINTERS => Ptr(b, k))
  }

  /** The inner loop of free_ind, over the pointers left. */
  function FreeLeaves(s: State, zs: seq<Zone>, seen: set<Zone>): (t: State)
    ensures BitmapOnly(s, t)
    decreases |zs|
  {
    if zs == [] then s else FreeLeaves(if zs[0] != 0 then FreeBlock(s, zs[0], seen) else s, zs[1..], seen)
  }

  function FreeInd(s: State, z: Zone, bad: set<Zone>, seen: set<Zone>): (t: State)
    ensures BitmapOnly(s, t)
  {
    if z == 0 then s else FreeBlock(if z in bad then s else FreeLeaves(s, Pointers(s.disk[z]), seen), z, seen)
  }

  /** The inner loop of free_dind, over the pointers left. */
  function FreeMids(s: State, zs: seq<Zone>, bad: set<Zone>, seen: set<Zone>): (t: State)
    ensures BitmapOnly(s, t)
    decreases |zs|
  {
    if zs == [] then s else FreeMids(FreeInd(s, zs[0], bad, seen), zs[1..], bad, seen)
  }

  function FreeDind(s: State, z: Zone, bad: set<Zone>, seen: set<Zone>): (t: State)
    ensures BitmapOnly(s, t)
  {
    if z == 0 then s else FreeBlock(if z in bad then s else FreeMids(s, Pointers(s.disk[z]), bad, seen), z, seen)
  }

  /** The loop over the direct zones: free each and clear its slot. */
  function FreeDirect(s: State, i: nat, seen: set<Zone>): (t: State)
    requires i < |s.roots|
    ensures BitmapOnly(s.(roots := s.roots[i := ZeroDirect(s.roots[i])]), t)
  {
    var t := FreeLeaves(s, s.roots[i][..DIRECT], seen);
    t.(roots := t.roots[i := ZeroDirect(t.roots[i])])
  }

  function ZeroDirect(r: Roots): Roots {
    [0, 0, 0, 0, 0, 0, 0, r[7], r[8]]
  }

  function ClearInode(s: State, i: nat): State
    requires i < |s.roots| && i < |s.sizes|
  {
    s.(roots := s.roots[i := s.roots[i][7 := 0][8 := 0]], sizes := s.sizes[i := 0])
  }

  function Truncate(s: State, i: nat, bad: set<Zone>, seen: set<Zone>): State
    requires i < |s.files| && i < |s.roots| && i < |s.sizes|
  {
    if !s.files[i] then s else
    var t := FreeDirect(s, i, seen);
    var u := FreeInd(t, t.roots[i][7], bad, seen);
    var v := FreeDind(u, u.roots[i][8], bad, seen);
    ClearInode(v, i)
  }

  // ---- which zones are freed --------------------------------------------------

  /** Those found uncounted. */
  ghost function Loose(f: set<Zone>, seen: set<Zone>): set<Zone> {
    set z | z in f && z !in seen
  }

  /** From s to t free_block was called for exactly the zones of f, without a panic: the loose
      ones are free, the others counted once more. */
  ghost predicate Frees(s: State, t: State, f: set<Zone>, seen: set<Zone>) {
    && |t.zmap| == |s.zmap| && t.first == s.first && t.nzones == s.nzones && t.disk == s.disk && t.panicked == s.panicked
    && |t.files| == |t.roots| == |t.sizes|
    && (forall z: Zone :: t.held[z] == s.held[z] + if z in f && z in seen then 1 else 0)
    && forall j: nat | j < |s.zmap| :: t.zmap[j] == (s.zmap[j] && j + s.first - 1 !in Loose(f, seen))
  }

  ghost predicate AllUsed(s: State, f: set<Zone>) {
    ShapeOk(s) && forall x: Zone | x in f :: s.first <= x < s.nzones && s.zmap[x - s.first + 1]
  }

  lemma FreesOne(s: State, z: Zone, seen: set<Zone>)
    requires AllUsed(s, {z})
    ensures Frees(s, FreeBlock(s, z, seen), {z}, seen)
  {
    assert z in {z};
  }

  lemma FreesNone(s: State, seen: set<Zone>)
    requires ShapeOk(s)
    ensures Frees(s, s, {}, seen)
  {
  }

  /** Freeing f and then g frees both, provided they were apart and in use. */
  lemma StillUsed(s: State, t: State, f: set<Zone>, g: set<Zone>, seen: set<Zone>)
    requires AllUsed(s, f + g) && Frees(s, t, f, seen) && f !! g
    ensures AllUsed(t, g)
  {
    forall x: Zone | x in g ensures t.first <= x < t.nzones && t.zmap[x - t.first + 1] {
      assert x in f + g && x !in f;
    }
    assert 0 + s.first - 1 !in f by {
      var y: Zone := s.first - 1;
      assert y in f ==> y in f + g;
    }
  }

  lemma FreesBoth(s: State, t: State, u: State, f: set<Zone>, g: set<Zone>, seen: set<Zone>)
    requires Frees(s, t, f, seen) && Frees(t, u, g, seen) && f !! g
    ensures Frees(s, u, f + g, seen)
  {
    assert Loose(f + g, seen) == Loose(f, seen) + Loose(g, seen);
  }

  lemma FreesOneMore(s: State, t: State, f: set<Zone>, z: Zone, seen: set<Zone>)
    requires AllUsed(s, f + {z}) && Frees(s, t, f, seen) && z !in f
    ensures Frees(s, FreeBlock(t, z, seen), f + {z}, seen)
  {
    StillUsed(s, t, f, {z}, seen);
    FreesOne(t, z, seen);
    FreesBoth(s, t, FreeBlock(t, z, seen), f, {z}, seen);
  }

  lemma FewerUsed(s: State, f: set<Zone>, g: set<Zone>)
    requires AllUsed(s, f) && g <= f
    ensures AllUsed(s, g)
  {
  }

  ghost function ZoneSet(zs: seq<Zone>): set<Zone> {
    set z | z in zs && z != 0
  }

  ghost predicate NoRepeats(zs: seq<Zone>) {
    forall j: nat, k: nat | j < k < |zs| && zs[j] != 0 :: zs[j] != zs[k]
  }

  lemma {:induction false} FreeLeavesFrees(s: State, zs: seq<Zone>, seen: set<Zone>)
    requires NoRepeats(zs) && AllUsed(s, ZoneSet(zs))
    ensures Frees(s, FreeLeaves(s, zs, seen), ZoneSet(zs), seen)
    decreases |zs|
  {
    if zs != [] {
      var rest := zs[1..];
      if zs[0] == 0 {
        assert zs == [zs[0]] + rest;
        assert ZoneSet(zs) == ZoneSet(rest);
        FreeLeavesFrees(s, rest, seen);
      } else {
        FirstLeaf(s, zs, seen);
        var t := FreeBlock(s, zs[0], seen);
        FreeLeavesFrees(t, rest, seen);
        FreesBoth(s, t, FreeLeaves(t, rest, seen), {zs[0]}, ZoneSet(rest), seen);
      }
    }
  }

  lemma FirstLeaf(s: State, zs: seq<Zone>, seen: set<Zone>)
    requires zs != [] && zs[0] != 0 && NoRepeats(zs) && AllUsed(s, ZoneSet(zs))
    ensures {zs[0]} + ZoneSet(zs[1..]) == ZoneSet(zs) && NoRepeats(zs[1..])
    ensures Frees(s, FreeBlock(s, zs[0], seen), {zs[0]}, seen) && AllUsed(FreeBlock(s, zs[0], seen), ZoneSet(zs[1..]))
  {
    var rest, f := zs[1..], {zs[0]};
    assert zs == [zs[0]] + rest;
    assert f + ZoneSet(rest) == ZoneSet(zs);
    assert zs[0] !in ZoneSet(rest);
    FreesOne(s, zs[0], seen);
    StillUsed(s, FreeBlock(s, zs[0], seen), f, ZoneSet(rest), seen);
  }

  /** An indirect block and what it points to. */
  ghost function IndSet(d: Disk, z: Zone, bad: set<Zone>): set<Zone> {
    if z == 0 then {} else (if z in bad then {} else ZoneSet(Pointers(d[z]))) + {z}
  }

  ghost predicate IndOk(d: Disk, z: Zone) {
    z != 0 ==> NoRepeats(Pointers(d[z])) && z !in Pointers(d[z])
  }

  lemma FreeIndFrees(s: State, z: Zone, bad: set<Zone>, seen: set<Zone>)
    requires IndOk(s.disk, z) && AllUsed(s, IndSet(s.disk, z, bad))
    ensures Frees(s, FreeInd(s, z, bad, seen), IndSet(s.disk, z, bad), seen)
  {
    if z != 0 {
      var f := if z in bad then {} else ZoneSet(Pointers(s.disk[z]));
      FewerUsed(s, f + {z}, f);
      if z !in bad {
        FreeLeavesFrees(s, Pointers(s.disk[z]), seen);
        FreesOneMore(s, FreeLeaves(s, Pointers(s.disk[z]), seen), f, z, seen);
      } else {
        FreesNone(s, seen);
        FreesOneMore(s, s, f, z, seen);
      }
    }
  }

  /** Several indirect blocks and what they point to. */
  ghost function MidSet(d: Disk, zs: seq<Zone>, bad: set<Zone>): set<Zone> {
    if zs == [] then {} else IndSet(d, zs[0], bad) + MidSet(d, zs[1..], bad)
  }

  lemma {:induction false} InMidSet(d: Disk, zs: seq<Zone>, x: Zone, bad: set<Zone>)
    ensures x in MidSet(d, zs, bad) <==> exists z: Zone :: z in zs && x in IndSet(d, z, bad)
    decreases |zs|
  {
    if zs != [] {
      InMidSet(d, zs[1..], x, bad);
      assert forall z: Zone :: z in zs <==> z == zs[0] || z in zs[1..];
    }
  }

  /** The indirect blocks of zs are well formed and pairwise apart. */
  ghost predicate MidsOk(d: Disk, zs: seq<Zone>, bad: set<Zone>) {
    && (forall k | 0 <= k < |zs| :: IndOk(d, zs[k]))
    && forall j, k | 0 <= j < k < |zs| :: IndSet(d, zs[j], bad) !! IndSet(d, zs[k], bad)
  }

  lemma {:induction false} FreeMidsFrees(s: State, zs: seq<Zone>, bad: set<Zone>, seen: set<Zone>)
    requires MidsOk(s.disk, zs, bad) && AllUsed(s, MidSet(s.disk, zs, bad))
    ensures Frees(s, FreeMids(s, zs, bad, seen), MidSet(s.disk, zs, bad), seen)
    decreases |zs|
  {
    if zs != [] {
      var f, g := IndSet(s.disk, zs[0], bad), MidSet(s.disk, zs[1..], bad);
      var t := FreeInd(s, zs[0], bad, seen);
      assert f + g == MidSet(s.disk, zs, bad);
      assert f !! g by {
        forall x: Zone | x in g ensures x !in f {
          InMidSet(s.disk, zs[1..], x, bad);
        }
      }
      FewerUsed(s, f + g, f);
      FreeIndFrees(s, zs[0], bad, seen);
      StillUsed(s, t, f, g, seen);
      assert MidsOk(t.disk, zs[1..], bad);
      FreeMidsFrees(t, zs[1..], bad, seen);
      FreesBoth(s, t, FreeMids(t, zs[1..], bad, seen), f, g, seen);
    }
  }

  ghost function DindSet(d: Disk, z: Zone, bad: set<Zone>): set<Zone> {
    if z == 0 then {} else (if z in bad then {} else MidSet(d, Pointers(d[z]), bad)) + {z}
  }

  lemma FreeDindFrees(s: State, z: Zone, bad: set<Zone>, seen: set<Zone>)
    requires z != 0 ==> MidsOk(s.disk, Pointers(s.disk[z]), bad) && z !in MidSet(s.disk, Pointers(s.disk[z]), bad)
    requires AllUsed(s, DindSet(s.disk, z, bad))
    ensures Frees(s, FreeDind(s, z, bad, seen), DindSet(s.disk, z, bad), seen)
  {
    if z != 0 {
      var zs := Pointers(s.disk[z]);
      if z !in bad {
        FewerUsed(s, MidSet(s.disk, zs, bad) + {z}, MidSet(s.disk, zs, bad));
        FreeMidsFrees(s, zs, bad, seen);
        FreesOneMore(s, FreeMids(s, zs, bad, seen), MidSet(s.disk, zs, bad), z, seen);
      } else {
        FreesNone(s, seen);
        FreesOneMore(s, s, {}, z, seen);
      }
    }
  }

  /** Every index block on the way to a place can be read. */
  predicate Readable(s: State, i: nat, p: Path, bad: set<Zone>)
    requires IsFile(s, i) && ValidPath(p)
  {
    match p
    case IndLeaf(_) => ZoneAt(s, i, Ind) !in bad
    case DindMid(_) => ZoneAt(s, i, Dind) !in bad
    case DindLeaf(a, _) => ZoneAt(s, i, Dind) !in bad && ZoneAt(s, i, DindMid(a)) !in bad
    case _ => true
  }

  // ---- the sets are the tree --------------------------------------------------

  ghost function TreeSet(s: State, i: nat, bad: set<Zone>): set<Zone>
    requires IsFile(s, i)
  {
    ZoneSet(s.roots[i][..DIRECT]) + IndSet(s.disk, s.roots[i][7], bad) + DindSet(s.disk, s.roots[i][8], bad)
  }

  /** Where a zone below DindMid(a), or that block itself, is recorded. */
  lemma UnderMid(s: State, i: nat, a: nat, x: Zone, bad: set<Zone>) returns (p: Path)
    requires IsFile(s, i) && a < POINTERS && x in IndSet(s.disk, ZoneAt(s, i, DindMid(a)), bad)
    ensures ValidPath(p) && ZoneAt(s, i, p) == x && x != 0 && (p == DindMid(a) || (p.DindLeaf? && p.a == a))
    ensures ZoneAt(s, i, Dind) !in bad ==> Readable(s, i, p, bad)
  {
    var m := ZoneAt(s, i, DindMid(a));
    if x == m {
      return DindMid(a);
    }
    var b :| 0 <= b < POINTERS && Pointers(s.disk[m])[b] == x;
    return DindLeaf(a, b);
  }

  lemma UnderInd(s: State, i: nat, x: Zone, bad: set<Zone>) returns (p: Path)
    requires IsFile(s, i) && x in IndSet(s.disk, s.roots[i][7], bad)
    ensures ValidPath(p) && ZoneAt(s, i, p) == x && x != 0 && (p.Ind? || p.IndLeaf?) && Readable(s, i, p, bad)
  {
    var m := s.roots[i][7];
    if x == m {
      return Ind;
    }
    var b :| 0 <= b < POINTERS && Pointers(s.disk[m])[b] == x;
    return IndLeaf(b);
  }

  lemma UnderMids(s: State, i: nat, x: Zone, bad: set<Zone>) returns (p: Path)
    requires IsFile(s, i) && s.roots[i][8] != 0 && x in MidSet(s.disk, Pointers(s.disk[s.roots[i][8]]), bad)
    ensures ValidPath(p) && ZoneAt(s, i, p) == x && x != 0 && (p.DindMid? || p.DindLeaf?)
    ensures ZoneAt(s, i, Dind) !in bad ==> Readable(s, i, p, bad)
  {
    var zs := Pointers(s.disk[s.roots[i][8]]);
    InMidSet(s.disk, zs, x, bad);
    var m: Zone :| m in zs && x in IndSet(s.disk, m, bad);
    var a :| 0 <= a < POINTERS && zs[a] == m;
    assert ZoneAt(s, i, DindMid(a)) == m;
    p := UnderMid(s, i, a, x, bad);
  }

  lemma UnderDirect(s: State, i: nat, x: Zone) returns (p: Path)
    requires IsFile(s, i) && x in ZoneSet(s.roots[i][..DIRECT])
    ensures ValidPath(p) && ZoneAt(s, i, p) == x && x != 0 && p.Direct?
  {
    var zs := s.roots[i][..DIRECT];
    var k :| 0 <= k < |zs| && zs[k] == x;
    return Direct(k);
  }

  /** Every zone free_block is called for is in the tree, where truncate can read it. */
  lemma OnlyTree(s: State, i: nat, x: Zone, bad: set<Zone>) returns (p: Path)
    requires IsFile(s, i) && x in TreeSet(s, i, bad)
    ensures ValidPath(p) && ZoneAt(s, i, p) == x && x != 0 && Readable(s, i, p, bad)
  {
    if x in ZoneSet(s.roots[i][..DIRECT]) {
      p := UnderDirect(s, i, x);
    } else if x in IndSet(s.disk, s.roots[i][7], bad) {
      p := UnderInd(s, i, x, bad);
    } else if x == s.roots[i][8] {
      return Dind;
    } else {
      p := UnderMids(s, i, x, bad);
    }
  }

  /** And it is called for every zone in the tree that can be reached by reading. */
  lemma WholeTree(s: State, i: nat, p: Path, bad: set<Zone>)
    requires IsFile(s, i) && ValidPath(p) && ZoneAt(s, i, p) != 0 && Readable(s, i, p, bad)
    ensures ZoneAt(s, i, p) in TreeSet(s, i, bad)
  {
    var x := ZoneAt(s, i, p);
    match p
    case Direct(k) =>
      assert s.roots[i][..DIRECT][k] == x;
    case Ind =>
    case IndLeaf(a) =>
      assert Pointers(s.disk[s.roots[i][7]])[a] == x;
    case Dind =>
    case DindMid(a) =>
      var zs := Pointers(s.disk[s.roots[i][8]]);
      assert zs[a] == x;
      InMidSet(s.disk, zs, x, bad);
      assert x in zs && x in IndSet(s.disk, x, bad);
    case DindLeaf(a, b) =>
      var zs := Pointers(s.disk[s.roots[i][8]]);
      var m := ZoneAt(s, i, DindMid(a));
      assert zs[a] == m;
      assert Pointers(s.disk[m])[b] == x;
      InMidSet(s.disk, zs, x, bad);
      assert m in zs && x in IndSet(s.disk, m, bad);
  }

  lemma IndIsOk(s: State, i: nat)
    requires Tidy(s) && IsFile(s, i)
    ensures NoRepeats(s.roots[i][..DIRECT]) && IndOk(s.disk, s.roots[i][7])
  {
    forall j: nat, k: nat | j < k < DIRECT && s.roots[i][j] != 0 ensures s.roots[i][j] != s.roots[i][k] {
      assert Apart(s, i, Direct(j), i, Direct(k));
    }
    var m := s.roots[i][7];
    if m != 0 {
      var zs := Pointers(s.disk[m]);
      forall j: nat, k: nat | j < k < |zs| && zs[j] != 0 ensures zs[j] != zs[k] {
        assert Apart(s, i, IndLeaf(j), i, IndLeaf(k));
      }
      forall j | 0 <= j < |zs| ensures zs[j] != m {
        assert Apart(s, i, Ind, i, IndLeaf(j));
      }
    }
  }

  lemma MidIsOk(s: State, i: nat, a: nat)
    requires Tidy(s) && IsFile(s, i) && a < POINTERS
    ensures IndOk(s.disk, ZoneAt(s, i, DindMid(a)))
  {
    var m := ZoneAt(s, i, DindMid(a));
    if m != 0 {
      var zs := Pointers(s.disk[m]);
      forall j: nat, k: nat | j < k < |zs| && zs[j] != 0 ensures zs[j] != zs[k] {
        assert Apart(s, i, DindLeaf(a, j), i, DindLeaf(a, k));
      }
      forall j | 0 <= j < |zs| ensures zs[j] != m {
        assert Apart(s, i, DindMid(a), i, DindLeaf(a, j));
      }
    }
  }

  lemma MidsAreOk(s: State, i: nat, bad: set<Zone>)
    requires Tidy(s) && IsFile(s, i) && s.roots[i][8] != 0
    ensures MidsOk(s.disk, Pointers(s.disk[s.roots[i][8]]), bad) && s.roots[i][8] !in MidSet(s.disk, Pointers(s.disk[s.roots[i][8]]), bad)
  {
    var z := s.roots[i][8];
    var zs := Pointers(s.disk[z]);
    forall k | 0 <= k < |zs| ensures IndOk(s.disk, zs[k]) {
      MidIsOk(s, i, k);
      assert ZoneAt(s, i, DindMid(k)) == zs[k];
    }
    forall j, k | 0 <= j < k < |zs| ensures IndSet(s.disk, zs[j], bad) !! IndSet(s.disk, zs[k], bad) {
      forall x: Zone | x in IndSet(s.disk, zs[j], bad) ensures x !in IndSet(s.disk, zs[k], bad) {
        if x in IndSet(s.disk, zs[k], bad) {
          assert ZoneAt(s, i, DindMid(j)) == zs[j] && ZoneAt(s, i, DindMid(k)) == zs[k];
          var p := UnderMid(s, i, j, x, bad);
          var q := UnderMid(s, i, k, x, bad);
          SameZone(s, i, p, i, q);
        }
      }
    }
    if z in MidSet(s.disk, zs, bad) {
      var p := UnderMids(s, i, z, bad);
      SameZone(s, i, p, i, Dind);
    }
  }

  lemma PartsApart(s: State, i: nat, bad: set<Zone>)
    requires Tidy(s) && IsFile(s, i)
    ensures ZoneSet(s.roots[i][..DIRECT]) !! IndSet(s.disk, s.roots[i][7], bad)
    ensures ZoneSet(s.roots[i][..DIRECT]) + IndSet(s.disk, s.roots[i][7], bad) !! DindSet(s.disk, s.roots[i][8], bad)
    ensures AllUsed(s, TreeSet(s, i, bad))
  {
    forall x: Zone | x in IndSet(s.disk, s.roots[i][7], bad) ensures x !in ZoneSet(s.roots[i][..DIRECT]) {
      var p := UnderInd(s, i, x, bad);
      if x in ZoneSet(s.roots[i][..DIRECT]) {
        var q := UnderDirect(s, i, x);
        SameZone(s, i, p, i, q);
      }
    }
    forall x: Zone | x in DindSet(s.disk, s.roots[i][8], bad)
      ensures x !in ZoneSet(s.roots[i][..DIRECT]) && x !in IndSet(s.disk, s.roots[i][7], bad)
    {
      var p := Dind;
      if x != s.roots[i][8] {
        p := UnderMids(s, i, x, bad);
      }
      if x in ZoneSet(s.roots[i][..DIRECT]) {
        var q := UnderDirect(s, i, x);
        SameZone(s, i, p, i, q);
      }
      if x in IndSet(s.disk, s.roots[i][7], bad) {
        var q := UnderInd(s, i, x, bad);
        SameZone(s, i, p, i, q);
      }
    }
    forall x: Zone | x in TreeSet(s, i, bad) ensures s.first <= x < s.nzones && s.zmap[x - s.first + 1] {
      var p := OnlyTree(s, i, x, bad);
      assert Used(s, i, p);
    }
  }

  lemma DirectStage(s: State, i: nat, bad: set<Zone>, seen: set<Zone>) returns (t: State)
    requires Tidy(s) && IsFile(s, i)
    ensures t == FreeDirect(s, i, seen) && t.disk == s.disk && t.roots == s.roots[i := ZeroDirect(s.roots[i])]
    ensures Frees(s, t, ZoneSet(s.roots[i][..DIRECT]), seen)
    ensures AllUsed(t, IndSet(s.disk, s.roots[i][7], bad) + DindSet(s.disk, s.roots[i][8], bad))
  {
    var d, m, n := ZoneSet(s.roots[i][..DIRECT]), IndSet(s.disk, s.roots[i][7], bad), DindSet(s.disk, s.roots[i][8], bad);
    IndIsOk(s, i);
    PartsApart(s, i, bad);
    assert d + m + n == d + (m + n);
    FewerUsed(s, d + m + n, d);
    FreeLeavesFrees(s, s.roots[i][..DIRECT], seen);
    t := FreeDirect(s, i, seen);
    StillUsed(s, t, d, m + n, seen);
  }

  lemma IndStage(t: State, z: Zone, n: set<Zone>, bad: set<Zone>, seen: set<Zone>) returns (u: State)
    requires IndOk(t.disk, z) && AllUsed(t, IndSet(t.disk, z, bad) + n) && IndSet(t.disk, z, bad) !! n && |t.files| == |t.roots| == |t.sizes|
    ensures u == FreeInd(t, z, bad, seen) && BitmapOnly(t, u) && Frees(t, u, IndSet(t.disk, z, bad), seen) && AllUsed(u, n)
  {
    FewerUsed(t, IndSet(t.disk, z, bad) + n, IndSet(t.disk, z, bad));
    FreeIndFrees(t, z, bad, seen);
    u := FreeInd(t, z, bad, seen);
    StillUsed(t, u, IndSet(t.disk, z, bad), n, seen);
  }

  lemma DindStage(s: State, u: State, i: nat, bad: set<Zone>, seen: set<Zone>) returns (v: State)
    requires Tidy(s) && IsFile(s, i) && u.disk == s.disk && |u.files| == |u.roots| == |u.sizes|
    requires AllUsed(u, DindSet(s.disk, s.roots[i][8], bad))
    ensures v == FreeDind(u, s.roots[i][8], bad, seen) && BitmapOnly(u, v) && Frees(u, v, DindSet(s.disk, s.roots[i][8], bad), seen)
  {
    if s.roots[i][8] != 0 {
      MidsAreOk(s, i, bad);
    }
    FreeDindFrees(u, s.roots[i][8], bad, seen);
    v := FreeDind(u, s.roots[i][8], bad, seen);
  }

  lemma Chain(s: State, t: State, u: State, v: State, w: State, i: nat, bad: set<Zone>, seen: set<Zone>)
    requires IsFile(s, i) && |s.files| == |s.roots| == |s.sizes|
    requires t.roots == s.roots[i := ZeroDirect(s.roots[i])] && BitmapOnly(s.(roots := t.roots), t)
    requires BitmapOnly(t, u) && BitmapOnly(u, v) && w == ClearInode(v, i)
    requires Frees(s, t, ZoneSet(s.roots[i][..DIRECT]), seen) && Frees(t, u, IndSet(s.disk, s.roots[i][7], bad), seen) && Frees(u, v, DindSet(s.disk, s.roots[i][8], bad), seen)
    requires ZoneSet(s.roots[i][..DIRECT]) !! IndSet(s.disk, s.roots[i][7], bad)
    requires ZoneSet(s.roots[i][..DIRECT]) + IndSet(s.disk, s.roots[i][7], bad) !! DindSet(s.disk, s.roots[i][8], bad)
    ensures Frees(s, w, TreeSet(s, i, bad), seen) && w.files == s.files && w.sizes == s.sizes[i := 0]
    ensures w.roots == s.roots[i := [0, 0, 0, 0, 0, 0, 0, 0, 0]]
  {
    FreesBoth(s, t, u, ZoneSet(s.roots[i][..DIRECT]), IndSet(s.disk, s.roots[i][7], bad), seen);
    FreesBoth(s, u, v, ZoneSet(s.roots[i][..DIRECT]) + IndSet(s.disk, s.roots[i][7], bad), DindSet(s.disk, s.roots[i][8], bad), seen);
    assert w.roots[i] == [0, 0, 0, 0, 0, 0, 0, 0, 0];
  }

  /** truncate, step by step, calls free_block for exactly these zones and never panics. */
  lemma TruncateFrees(s: State, i: nat, bad: set<Zone>, seen: set<Zone>)
    requires Tidy(s) && IsFile(s, i)
    ensures var t := Truncate(s, i, bad, seen);
      && Frees(s, t, TreeSet(s, i, bad), seen) && t.files == s.files && t.sizes == s.sizes[i := 0]
      && t.roots == s.roots[i := [0, 0, 0, 0, 0, 0, 0, 0, 0]]
  {
    IndIsOk(s, i);
    PartsApart(s, i, bad);
    var t := DirectStage(s, i, bad, seen);
    var u := IndStage(t, s.roots[i][7], DindSet(s.disk, s.roots[i][8], bad), bad, seen);
    var v := DindStage(s, u, i, bad, seen);
    Chain(s, t, u, v, ClearInode(v, i), i, bad, seen);
  }

  ghost predicate InTree(s: State, i: nat, z: Zone)
    requires IsFile(s, i)
  {
    z != 0 && exists p: Path {:trigger ZoneAt(s, i, p)} :: ValidPath(p) && ZoneAt(s, i, p) == z
  }

  /** A zone of the tree that truncate finds. */
  ghost predicate Found(s: State, i: nat, z: Zone, bad: set<Zone>)
    requires IsFile(s, i)
  {
    z != 0 && exists p: Path {:trigger ZoneAt(s, i, p)} :: ValidPath(p) && ZoneAt(s, i, p) == z && Readable(s, i, p, bad)
  }

  lemma FoundIsTree(s: State, i: nat, z: Zone, bad: set<Zone>)
    requires IsFile(s, i)
    ensures z in TreeSet(s, i, bad) <==> Found(s, i, z, bad)
  {
    if z in TreeSet(s, i, bad) {
      var p := OnlyTree(s, i, z, bad);
    }
    if Found(s, i, z, bad) {
      var p: Path :| ValidPath(p) && ZoneAt(s, i, p) == z && Readable(s, i, p, bad);
      WholeTree(s, i, p, bad);
    }
  }

  /** Truncate gives the zone back: it finds it, and its buffer uncounted. */
  ghost predicate GivenBack(s: State, i: nat, z: Zone, bad: set<Zone>, seen: set<Zone>)
    requires IsFile(s, i)
  {
    Found(s, i, z, bad) && z !in seen
  }

  /** truncate forgets its whole tree and gives back exactly what it finds uncounted: no
      other bit moves, other files keep every byte, and what it forgets without giving it
      back is lost. */
  lemma TruncateExact(s: State, i: nat, bad: set<Zone>, seen: set<Zone>)
    requires Tidy(s) && IsFile(s, i)
    ensures var t := Truncate(s, i, bad, seen);
      && Tidy(t) && t.panicked == s.panicked && t.sizes == s.sizes[i := 0] && t.files == s.files
      && (forall z: Zone | DataZone(s, z) :: Bit(t, z) == (Bit(s, z) && !GivenBack(s, i, z, bad, seen)))
      && (forall j: nat, p: Path | IsFile(s, j) && ValidPath(p) :: ZoneAt(t, j, p) == if j == i then 0 else ZoneAt(s, j, p))
      && (forall j: nat, x: nat | IsFile(s, j) :: ByteAt(t, j, x) == if j == i then 0 else ByteAt(s, j, x))
      && (forall z: Zone {:trigger Stray(t, z)} :: Stray(t, z) <==> Stray(s, z) || (InTree(s, i, z) && !GivenBack(s, i, z, bad, seen)))
  {
    var t := Truncate(s, i, bad, seen);
    TruncateFrees(s, i, bad, seen);
    TreeFreed(s, t, i, bad, seen);
    forall z: Zone ensures Stray(t, z) <==> Stray(s, z) || (InTree(s, i, z) && !GivenBack(s, i, z, bad, seen)) {
      ForgottenIsStray(s, t, i, z, bad, seen);
    }
  }

  /** What is counted at the call and stays so is still counted when its turn comes. */
  ghost predicate SeesHeld(s: State, seen: set<Zone>) {
    forall z: Zone | s.held[z] > 0 :: z in seen
  }

  /** Each zone found counted is counted once more for ever, by free_block itself. */
  lemma TruncateCounts(s: State, i: nat, bad: set<Zone>, z: Zone, seen: set<Zone>)
    requires Tidy(s) && IsFile(s, i)
    ensures Truncate(s, i, bad, seen).held[z] == s.held[z] + if Found(s, i, z, bad) && z in seen then 1 else 0
  {
    TruncateFrees(s, i, bad, seen);
    FoundIsTree(s, i, z, bad);
  }

  lemma TruncateHeldUsed(s: State, i: nat, bad: set<Zone>, seen: set<Zone>)
    requires Tidy(s) && IsFile(s, i) && HeldUsed(s) && SeesHeld(s, seen)
    ensures ShapeOk(Truncate(s, i, bad, seen)) && HeldUsed(Truncate(s, i, bad, seen))
  {
    var t := Truncate(s, i, bad, seen);
    TruncateExact(s, i, bad, seen);
    assert t.first == s.first && t.nzones == s.nzones by { TruncateFrees(s, i, bad, seen); }
    forall z: Zone | DataZone(t, z) && t.held[z] > 0 ensures Bit(t, z) {
      TruncateCounts(s, i, bad, z, seen);
      if s.held[z] == 0 {
        FoundUsed(s, i, z, bad);
      }
    }
  }

  lemma FoundUsed(s: State, i: nat, z: Zone, bad: set<Zone>)
    requires Tidy(s) && IsFile(s, i) && Found(s, i, z, bad)
    ensures DataZone(s, z) && Bit(s, z)
  {
    var p: Path :| ValidPath(p) && ZoneAt(s, i, p) == z && Readable(s, i, p, bad);
    PathUsed(s, i, p);
  }

  /** What is no file or directory is left alone: its numbers are not zones. */
  lemma TruncateOther(s: State, i: nat, bad: set<Zone>, seen: set<Zone>)
    requires i < |s.files| && i < |s.roots| && i < |s.sizes| && !s.files[i]
    ensures Truncate(s, i, bad, seen) == s
  {
  }

  /** truncate loses nothing if and only if no buffer of the file is counted when its turn comes
      and every index block on the way to a recorded zone can be read. */
  lemma TruncateConservesIff(s: State, i: nat, bad: set<Zone>, seen: set<Zone>)
    requires Conserved(s) && IsFile(s, i)
    ensures Conserved(Truncate(s, i, bad, seen)) <==>
      forall p: Path | ValidPath(p) && ZoneAt(s, i, p) != 0 :: ZoneAt(s, i, p) !in seen && Readable(s, i, p, bad)
  {
    var t := Truncate(s, i, bad, seen);
    TruncateExact(s, i, bad, seen);
    if Conserved(t) {
      forall p: Path | ValidPath(p) && ZoneAt(s, i, p) != 0 ensures ZoneAt(s, i, p) !in seen && Readable(s, i, p, bad) {
        assert !Stray(t, ZoneAt(s, i, p));
        var q: Path :| ValidPath(q) && ZoneAt(s, i, q) == ZoneAt(s, i, p) && Readable(s, i, q, bad);
        SameZone(s, i, p, i, q);
      }
    }
    if forall p: Path | ValidPath(p) && ZoneAt(s, i, p) != 0 :: ZoneAt(s, i, p) !in seen && Readable(s, i, p, bad) {
      forall z: Zone ensures !Stray(t, z) {
        assert !Stray(s, z);
      }
    }
  }

  /** A file system of two data zones, both one file's: index block 1 with data block 2. */
  ghost function SmallFile(held: multiset<Zone>): State {
    var index: Block := SetPtr(ZeroBlock(), 0, 2);
    State([true, true, true], 1, 3, ZeroBlocks()[1 := index], [true], [[0, 0, 0, 0, 0, 0, 0, 1, 0]], [8 * 1024], held, false)
  }

  lemma SmallPlaces(held: multiset<Zone>, p: Path)
    requires ValidPath(p)
    ensures ZoneAt(SmallFile(held), 0, p) == if p == Ind then 1 else if p == IndLeaf(0) then 2 else 0
  {
    ZeroPointers();
  }

  lemma SmallConserved(held: multiset<Zone>)
    ensures Conserved(SmallFile(held))
  {
    var s := SmallFile(held);
    forall p: Path | ValidPath(p) ensures ZoneAt(s, 0, p) == if p == Ind then 1 else if p == IndLeaf(0) then 2 else 0 {
      SmallPlaces(held, p);
    }
    assert ZoneAt(s, 0, Ind) == 1 && ZoneAt(s, 0, IndLeaf(0)) == 2;
    assert Reachable(s, 1) && Reachable(s, 2);
  }

  /** Somebody reading block 2 when the file is truncated, or coming to read it while truncate
      waits for block 1, or a read error on block 1: zone 2 stays allocated and belongs to
      nobody. */
  lemma TruncateLoses()
    ensures var s := SmallFile(multiset{2});
      IsFile(s, 0) && Conserved(s) && ShapeOk(Truncate(s, 0, {}, {2})) && Stray(Truncate(s, 0, {}, {2}), 2)
    ensures var s := SmallFile(multiset{});
      && IsFile(s, 0) && Conserved(s)
      && ShapeOk(Truncate(s, 0, {}, {2})) && Stray(Truncate(s, 0, {}, {2}), 2)
      && ShapeOk(Truncate(s, 0, {1}, {})) && Stray(Truncate(s, 0, {1}, {}), 2)
  {
    SmallLoses(multiset{2}, {}, {2});
    SmallLoses(multiset{}, {}, {2});
    SmallLoses(multiset{}, {1}, {});
  }

  lemma SmallLoses(held: multiset<Zone>, bad: set<Zone>, seen: set<Zone>)
    requires 1 in bad || 2 in seen
    ensures var s := SmallFile(held);
      IsFile(s, 0) && Conserved(s) && ShapeOk(Truncate(s, 0, bad, seen)) && Stray(Truncate(s, 0, bad, seen), 2)
  {
    var s := SmallFile(held);
    SmallConserved(held);
    forall p: Path | ValidPath(p) ensures ZoneAt(s, 0, p) == if p == Ind then 1 else if p == IndLeaf(0) then 2 else 0 {
      SmallPlaces(held, p);
    }
    TruncateExact(s, 0, bad, seen);
    assert ZoneAt(s, 0, Ind) == 1 && ZoneAt(s, 0, IndLeaf(0)) == 2;
    assert InTree(s, 0, 2) && (1 in bad ==> !Found(s, 0, 2, bad));
  }

  lemma PathUsed(s: State, i: nat, p: Path)
    requires Tidy(s) && IsFile(s, i) && ValidPath(p)
    ensures Used(s, i, p)
  {
  }

  lemma TreeFreed(s: State, t: State, i: nat, bad: set<Zone>, seen: set<Zone>)
    requires Tidy(s) && IsFile(s, i) && Frees(s, t, TreeSet(s, i, bad), seen) && t.files == s.files && t.sizes == s.sizes[i := 0]
    requires t.roots == s.roots[i := [0, 0, 0, 0, 0, 0, 0, 0, 0]]
    ensures Tidy(t)
    ensures forall z: Zone | DataZone(s, z) :: Bit(t, z) == (Bit(s, z) && !GivenBack(s, i, z, bad, seen))
    ensures forall j: nat, p: Path | IsFile(s, j) && ValidPath(p) :: ZoneAt(t, j, p) == if j == i then 0 else ZoneAt(s, j, p)
  {
    forall j: nat, p: Path | IsFile(s, j) && ValidPath(p) ensures ZoneAt(t, j, p) == if j == i then 0 else ZoneAt(s, j, p) {
    }
    BitsFreed(s, t, i, bad, seen);
    ForgottenTidy(s, t, i, bad, seen);
  }

  lemma BitsFreed(s: State, t: State, i: nat, bad: set<Zone>, seen: set<Zone>)
    requires Tidy(s) && IsFile(s, i) && Frees(s, t, TreeSet(s, i, bad), seen) && |t.files| == |s.files|
    ensures ShapeOk(t)
    ensures forall z: Zone | DataZone(s, z) :: Bit(t, z) == (Bit(s, z) && !GivenBack(s, i, z, bad, seen))
  {
    assert t.zmap[0] by {
      var y: Zone := s.first - 1;
      if y in TreeSet(s, i, bad) {
        var p := OnlyTree(s, i, y, bad);
        PathUsed(s, i, p);
      }
    }
    forall z: Zone | DataZone(s, z) ensures Bit(t, z) == (Bit(s, z) && !GivenBack(s, i, z, bad, seen)) {
      FoundIsTree(s, i, z, bad);
    }
  }

  lemma ForgottenTidy(s: State, t: State, i: nat, bad: set<Zone>, seen: set<Zone>)
    requires Tidy(s) && ShapeOk(t) && IsFile(s, i) && t.files == s.files && t.first == s.first && t.nzones == s.nzones
    requires forall z: Zone | DataZone(s, z) :: Bit(t, z) == (Bit(s, z) && !GivenBack(s, i, z, bad, seen))
    requires forall j: nat, p: Path | IsFile(s, j) && ValidPath(p) :: ZoneAt(t, j, p) == if j == i then 0 else ZoneAt(s, j, p)
    ensures Tidy(t)
  {
    forall j: nat, p: Path | IsFile(t, j) && ValidPath(p) ensures Used(t, j, p) {
      assert Used(s, j, p);
      if j != i && ZoneAt(s, j, p) != 0 && GivenBack(s, i, ZoneAt(s, j, p), bad, seen) {
        var q: Path :| ValidPath(q) && ZoneAt(s, i, q) == ZoneAt(s, j, p);
        SameZone(s, j, p, i, q);
      }
    }
    forall j: nat, p: Path, k: nat, q: Path | IsFile(t, j) && ValidPath(p) && IsFile(t, k) && ValidPath(q) ensures Apart(t, j, p, k, q) {
      assert Apart(s, j, p, k, q);
    }
  }

  lemma ForgottenIsStray(s: State, t: State, i: nat, z: Zone, bad: set<Zone>, seen: set<Zone>)
    requires Tidy(s) && Tidy(t) && IsFile(s, i) && t.files == s.files && |t.roots| == |s.roots| && |t.sizes| == |s.sizes|
    requires t.first == s.first && t.nzones == s.nzones
    requires DataZone(s, z) ==> Bit(t, z) == (Bit(s, z) && !GivenBack(s, i, z, bad, seen))
    requires forall j: nat, p: Path | IsFile(s, j) && ValidPath(p) :: ZoneAt(t, j, p) == if j == i then 0 else ZoneAt(s, j, p)
    ensures Stray(t, z) <==> Stray(s, z) || (InTree(s, i, z) && !GivenBack(s, i, z, bad, seen))
  {
    if InTree(s, i, z) {
      var p: Path :| ValidPath(p) && ZoneAt(s, i, p) == z;
      PathUsed(s, i, p);
      if Reachable(t, z) {
        var j: nat, q: Path :| IsFile(t, j) && ValidPath(q) && ZoneAt(t, j, q) == z;
        SameZone(s, i, p, j, q);
      }
    } else {
      if Reachable(t, z) && z != 0 {
        var j: nat, q: Path :| IsFile(t, j) && ValidPath(q) && ZoneAt(t, j, q) == z;
        assert ZoneAt(s, j, q) == z;
      }
      if Reachable(s, z) && z != 0 {
        var j: nat, q: Path :| IsFile(s, j) && ValidPath(q) && ZoneAt(s, j, q) == z;
        assert j != i ==> ZoneAt(t, j, q) == z;
      }
    }
  }
}
