/** What allocation keeps: the trees stay apart and allocated, no zone is lost, whatever
    fails part-way, and no byte of any file changes. */
module ZoneTree {
  import opened Zones

  /** No data zone is free. */
  ghost predicate Full(s: State)
    requires ShapeOk(s)
  {
    forall z: Zone | DataZone(s, z) :: Bit(s, z)
  }

  ghost predicate HasParent(s: State, i: nat, p: Path)
    requires IsFile(s, i) && ValidPath(p)
  {
    match p
    case IndLeaf(_) => ZoneAt(s, i, Ind) != 0
    case DindMid(_) => ZoneAt(s, i, Dind) != 0
    case DindLeaf(a, _) => ZoneAt(s, i, DindMid(a)) != 0
    case _ => true
  }

  /** t differs from s by zones that were free: nothing recorded is lost or moved, data
      blocks keep their bytes, and a block that appears is zero. */
  ghost predicate GrownAt(s: State, t: State, i: nat, p: Path)
    requires IsFile(s, i) && IsFile(t, i) && ValidPath(p)
  {
    var y, z := ZoneAt(s, i, p), ZoneAt(t, i, p);
    && (y != 0 ==> z == y)
    && (IsLeaf(p) && y != 0 ==> t.disk[y] == s.disk[y])
    && (IsLeaf(p) && y == 0 && z != 0 ==> t.disk[z] == ZeroBlock())
  }

  ghost predicate Grown(s: State, t: State) {
    && t.files == s.files && t.sizes == s.sizes && |t.roots| == |s.roots|
    && t.first == s.first && t.nzones == s.nzones
    && forall i: nat, p: Path {:trigger GrownAt(s, t, i, p)} | IsFile(s, i) && ValidPath(p) :: GrownAt(s, t, i, p)
  }

  lemma GrownTrans(s: State, t: State, u: State)
    requires Grown(s, t) && Grown(t, u)
    ensures Grown(s, u)
  {
    forall i: nat, p: Path | IsFile(s, i) && ValidPath(p) ensures GrownAt(s, u, i, p) {
      assert GrownAt(s, t, i, p) && GrownAt(t, u, i, p);
    }
  }

  lemma GrownBytes(s: State, t: State, i: nat, pos: nat)
    requires Grown(s, t) && IsFile(s, i)
    ensures ByteAt(t, i, pos) == ByteAt(s, i, pos)
  {
    if pos / 1024 < MAX_BLOCKS {
      assert GrownAt(s, t, i, Leaf(pos / 1024));
    }
  }

  lemma SameTreesTidy(s: State, t: State)
    requires Tidy(s) && t == s.(disk := t.disk, sizes := t.sizes, zmap := t.zmap, held := t.held, panicked := t.panicked)
    requires |t.sizes| == |s.sizes| && ShapeOk(t)
    requires forall z: Zone | DataZone(s, z) && Bit(s, z) :: Bit(t, z)
    requires forall j: nat, q: Path | IsFile(s, j) && ValidPath(q) :: ZoneAt(t, j, q) == ZoneAt(s, j, q)
    ensures Tidy(t) && forall z: Zone :: Reachable(t, z) <==> Reachable(s, z)
  {
    forall j: nat, q: Path | IsFile(t, j) && ValidPath(q) ensures Used(t, j, q) {
      assert Used(s, j, q);
    }
    forall i: nat, p: Path, j: nat, q: Path | IsFile(t, i) && ValidPath(p) && IsFile(t, j) && ValidPath(q) ensures Apart(t, i, p, j, q) {
      assert Apart(s, i, p, j, q);
    }
    forall z: Zone ensures Reachable(t, z) <==> Reachable(s, z) {
      SameReach(s, t, z);
    }
  }

  lemma SameReach(s: State, t: State, z: Zone)
    requires forall j: nat :: IsFile(s, j) <==> IsFile(t, j)
    requires forall j: nat, q: Path | IsFile(s, j) && ValidPath(q) :: ZoneAt(t, j, q) == ZoneAt(s, j, q)
    ensures Reachable(t, z) <==> Reachable(s, z)
  {
    if Reachable(s, z) {
      var j: nat, q: Path :| IsFile(s, j) && ValidPath(q) && ZoneAt(s, j, q) == z;
      assert ZoneAt(t, j, q) == z;
    }
  }

  /** z is free and no data zone before it is. */
  ghost predicate FirstFree(s: State, z: Zone)
    requires ShapeOk(s)
  {
    DataZone(s, z) && !Bit(s, z) && forall y: Zone | DataZone(s, y) && y < z :: Bit(s, y)
  }

  /** The bit taken is the first free zone's, and that zone is in no tree. */
  lemma TakeBitFresh(s: State)
    requires Tidy(s) && TakeBit(s).1 != 0
    ensures var (t, z) := TakeBit(s);
      && FirstFree(s, z) && t == s.(zmap := s.zmap[z - s.first + 1 := true])
      && forall i: nat, p: Path | IsFile(s, i) && ValidPath(p) :: ZoneAt(s, i, p) != z
  {
    var z := TakeBit(s).1;
    forall i: nat, p: Path | IsFile(s, i) && ValidPath(p) ensures ZoneAt(s, i, p) != z {
      assert Used(s, i, p);
    }
  }

  /** Writing a zone that is in no tree moves nothing in any. */
  lemma StrayWriteKeepsTrees(s: State, z: Zone, b: Block, i: nat, p: Path)
    requires IsFile(s, i) && ValidPath(p) && z != 0
    requires forall j: nat, q: Path | IsFile(s, j) && ValidPath(q) :: ZoneAt(s, j, q) != z
    ensures ZoneAt(s.(disk := s.disk[z := b]), i, p) == ZoneAt(s, i, p)
  {
    assert ZoneAt(s, i, Ind) != z && ZoneAt(s, i, Dind) != z;
    if p.DindLeaf? {
      assert ZoneAt(s, i, DindMid(p.a)) != z;
    }
  }

  /** new_block hands out a zone that was in no tree, and that nobody has counted. */
  lemma NewBlockFresh(s: State)
    requires Tidy(s) && NewBlock(s).1 != 0
    ensures var (t, z) := NewBlock(s);
      && DataZone(s, z) && !Bit(s, z) && s.held[z] == 0
      && t == s.(zmap := s.zmap[z - s.first + 1 := true], disk := s.disk[z := ZeroBlock()])
      && (forall i: nat, p: Path | IsFile(s, i) && ValidPath(p) :: ZoneAt(s, i, p) != z && ZoneAt(t, i, p) == ZoneAt(s, i, p))
  {
    var (t, z) := NewBlock(s);
    TakeBitFresh(s);
    forall i: nat, p: Path | IsFile(s, i) && ValidPath(p) ensures ZoneAt(t, i, p) == ZoneAt(s, i, p) {
      StrayWriteKeepsTrees(s, z, ZeroBlock(), i, p);
    }
  }

  /** It panics if and only if the first free zone's buffer is in use all the same. */
  lemma NewBlockPanicsIff(s: State)
    requires ShapeOk(s) && !s.panicked
    ensures NewBlock(s).0.panicked <==> exists z: Zone :: FirstFree(s, z) && s.held[z] > 0
  {
    var z := TakeBit(s).1;
    if z != 0 {
      assert FirstFree(s, z);
    }
    forall y: Zone | FirstFree(s, y) ensures y == z {
      assert !s.zmap[y - s.first + 1];
    }
  }

  /** Every counted buffer is of a zone in use. */
  ghost predicate HeldUsed(s: State)
    requires ShapeOk(s)
  {
    forall z: Zone | DataZone(s, z) && s.held[z] > 0 :: Bit(s, z)
  }

  /** new_block fails only when every data zone is taken, or in a panic. */
  lemma NewBlockFull(s: State)
    requires Tidy(s) && !s.panicked && NewBlock(s).1 == 0
    ensures var t := NewBlock(s).0;
      Tidy(t) && Grown(s, t) && (!t.panicked ==> Full(t) && SameStray(s, t)) && (HeldUsed(s) ==> !t.panicked && HeldUsed(t))
  {
    var t := NewBlock(s).0;
    assert t.disk == s.disk && t.roots == s.roots;
    SameTreesTidy(s, t);
    if !t.panicked {
      assert forall z: Zone | DataZone(s, z) :: Bit(t, z) == Bit(s, z);
    }
    NewBlockPanicsIff(s);
    assert HeldUsed(s) ==> forall z: Zone | FirstFree(s, z) :: s.held[z] == 0;
  }

  /** A failing new_block changes the bitmap if and only if a bit past the last zone was clear. */
  lemma FailureSetsBitIff(s: State)
    requires ShapeOk(s) && !s.panicked
    ensures var (t, z) := NewBlock(s);
      z == 0 && !t.panicked && t.zmap != s.zmap <==> Full(s) && exists k: nat :: s.nzones - s.first + 1 <= k < |s.zmap| && !s.zmap[k]
  {
    var (t, z) := NewBlock(s);
    var j := FirstZero(s.zmap, 0);
    if j < |s.zmap| {
      assert t.zmap[j] && !s.zmap[j];
    }
    if z == 0 && !t.panicked && t.zmap != s.zmap {
      assert j >= s.nzones - s.first + 1;
    }
    if j < s.nzones - s.first + 1 {
      var y: Zone := j + s.first - 1;
      assert DataZone(s, y) && !Bit(s, y);
    }
  }

  /** A full file system of one zone with one bit to spare: the failure takes that bit. */
  lemma FailureSetsBit(s: State)
    requires ShapeOk(s) && !s.panicked && s.first == 1 && s.nzones == 2 && s.zmap == [true, true, false]
    ensures NewBlock(s) == (s.(zmap := [true, true, true]), 0)
  {
    assert FirstZero(s.zmap, 2) == 2;
    assert FirstZero(s.zmap, 1) == 2;
    assert s.zmap[2 := true] == [true, true, true];
  }

  /** z is a zero block in no tree. */
  ghost predicate FreshZone(s: State, z: Zone) {
    z != 0 && s.disk[z] == ZeroBlock() && forall j: nat, q: Path | IsFile(s, j) && ValidPath(q) :: ZoneAt(s, j, q) != z
  }

  /** It is put at (i, p), empty or not. */
  ghost predicate FreshFor(s: State, i: nat, p: Path, z: Zone)
    requires IsFile(s, i) && ValidPath(p)
  {
    HasParent(s, i, p) && FreshZone(s, z)
  }

  /** Place q is reached through place p. */
  predicate Below(p: Path, q: Path) {
    match p
    case Ind => q.IndLeaf?
    case Dind => q.DindMid? || q.DindLeaf?
    case DindMid(a) => q.DindLeaf? && q.a == a
    case _ => false
  }

  lemma SetRootOther(s: State, i: nat, p: Path, z: Zone, j: nat, q: Path)
    requires IsFile(s, i) && (p.Direct? || p.Ind? || p.Dind?) && ValidPath(p) && FreshFor(s, i, p, z)
    requires IsFile(s, j) && ValidPath(q) && (j != i || q != p)
    ensures ZoneAt(SetAt(s, i, p, z), j, q) == if j == i && Below(p, q) then 0 else ZoneAt(s, j, q)
  {
    ZeroPointers();
  }

  lemma SetIndirectOther(s: State, i: nat, p: Path, z: Zone, j: nat, q: Path)
    requires NoSharing(s) && IsFile(s, i) && (p.IndLeaf? || p.DindMid? || p.DindLeaf?) && ValidPath(p) && FreshFor(s, i, p, z)
    requires IsFile(s, j) && ValidPath(q) && (j != i || q != p)
    ensures ZoneAt(SetAt(s, i, p, z), j, q) == if j == i && Below(p, q) then 0 else ZoneAt(s, j, q)
  {
    ZeroPointers();
    assert Apart(s, i, Parent(p), j, Ind) && Apart(s, i, Parent(p), j, Dind);
    assert ZoneAt(s, i, Parent(p)) != z;
    if q.DindLeaf? {
      assert ZoneAt(s, j, DindMid(q.a)) != z;
      assert Apart(s, i, Parent(p), j, DindMid(q.a));
    }
  }

  /** Recording a fresh zone changes no other place, except that what was below the place is
      no longer... */
  lemma SetAtOther(s: State, i: nat, p: Path, z: Zone, j: nat, q: Path)
    requires NoSharing(s) && IsFile(s, i) && ValidPath(p) && FreshFor(s, i, p, z) && IsFile(s, j) && ValidPath(q) && (j != i || q != p)
    ensures ZoneAt(SetAt(s, i, p, z), j, q) == if j == i && Below(p, q) then 0 else ZoneAt(s, j, q)
    ensures ZoneAt(s, i, p) == 0 ==> ZoneAt(SetAt(s, i, p, z), j, q) == ZoneAt(s, j, q)
  {
    if p.Direct? || p.Ind? || p.Dind? {
      SetRootOther(s, i, p, z, j, q);
    } else {
      SetIndirectOther(s, i, p, z, j, q);
    }
  }

  /** ... and no data block. */
  lemma SetAtData(s: State, i: nat, p: Path, z: Zone, j: nat, q: Path)
    requires NoSharing(s) && IsFile(s, i) && ValidPath(p) && FreshFor(s, i, p, z) && IsFile(s, j) && ValidPath(q) && IsLeaf(q) && ZoneAt(s, j, q) != 0
    ensures SetAt(s, i, p, z).disk[ZoneAt(s, j, q)] == s.disk[ZoneAt(s, j, q)]
  {
    var parent := Parent(p);
    assert Apart(s, i, parent, j, q);
  }

  lemma SetAtItself(s: State, i: nat, p: Path, z: Zone)
    requires NoSharing(s) && IsFile(s, i) && ValidPath(p) && FreshFor(s, i, p, z)
    ensures ZoneAt(SetAt(s, i, p, z), i, p) == z && SetAt(s, i, p, z).disk[z] == ZeroBlock()
  {
    var parent := Parent(p);
    assert ZoneAt(s, i, parent) != z;
    assert Apart(s, i, parent, i, Dind);
  }

  /** From s to t nothing was lost: zones stay conserved, no byte of any file changes, and
      without a place for z every zone is taken; a panic aside, which needs a counted buffer
      of a free zone. */
  ghost predicate Keeps(s: State, t: State, z: Zone, at: Zone)
    requires ShapeOk(s) && ShapeOk(t)
  {
    && Tidy(t) && Grown(s, t) && t.held == s.held && (t.panicked ==> z == 0)
    && (!t.panicked ==> SameStray(s, t) && if z == 0 then Full(t) else at == z)
    && (HeldUsed(s) ==> !t.panicked && HeldUsed(t))
  }

  lemma FillKeeps(s: State, i: nat, p: Path)
    requires Tidy(s) && !s.panicked && IsFile(s, i) && ValidPath(p) && HasParent(s, i, p)
    ensures var (t, z) := Fill(s, i, p); Keeps(s, t, z, ZoneAt(t, i, p))
  {
    if ZoneAt(s, i, p) == 0 {
      if NewBlock(s).1 == 0 {
        NewBlockFull(s);
      } else {
        FillFresh(s, i, p);
      }
    } else {
      assert forall j: nat, q: Path | IsFile(s, j) && ValidPath(q) :: GrownAt(s, s, j, q);
    }
  }

  /** u records one more zone than s, at a place that was empty. */
  ghost predicate OneMore(s: State, u: State, i: nat, p: Path, z: Zone)
    requires ShapeOk(s) && IsFile(s, i) && ValidPath(p)
  {
    && DataZone(s, z) && !Bit(s, z) && ZoneAt(s, i, p) == 0 && z != 0
    && u == s.(zmap := s.zmap[z - s.first + 1 := true], disk := u.disk, roots := u.roots) && |u.roots| == |s.roots|
    && ZoneAt(u, i, p) == z && u.disk[z] == ZeroBlock()
    && (forall j: nat, q: Path | IsFile(s, j) && ValidPath(q) && (j != i || q != p) :: ZoneAt(u, j, q) == ZoneAt(s, j, q))
    && (forall j: nat, q: Path | IsFile(s, j) && ValidPath(q) && IsLeaf(q) && ZoneAt(s, j, q) != 0 ::
          u.disk[ZoneAt(s, j, q)] == s.disk[ZoneAt(s, j, q)])
  }

  lemma OneMoreTidy(s: State, u: State, i: nat, p: Path, z: Zone)
    requires Tidy(s) && IsFile(s, i) && ValidPath(p) && OneMore(s, u, i, p, z)
    ensures Tidy(u) && SameStray(s, u)
  {
    forall j: nat, q: Path | IsFile(u, j) && ValidPath(q) ensures Used(u, j, q) && (j != i || q != p ==> ZoneAt(u, j, q) != z) {
      assert Used(s, j, q);
    }
    forall j: nat, q: Path, k: nat, r: Path | IsFile(u, j) && ValidPath(q) && IsFile(u, k) && ValidPath(r) ensures Apart(u, j, q, k, r) {
      if ZoneAt(u, j, q) == ZoneAt(u, k, r) && ZoneAt(u, j, q) != 0 && ZoneAt(u, j, q) != z {
        SameZone(s, j, q, k, r);
      }
    }
    forall y: Zone ensures Stray(u, y) <==> Stray(s, y) {
      if y != 0 {
        OneMoreReach(s, u, i, p, z, y);
      }
    }
  }

  lemma OneMoreReach(s: State, u: State, i: nat, p: Path, z: Zone, y: Zone)
    requires ShapeOk(s) && IsFile(s, i) && ValidPath(p) && OneMore(s, u, i, p, z) && y != 0
    ensures Reachable(u, y) <==> Reachable(s, y) || y == z
  {
    if y == z {
      assert ZoneAt(u, i, p) == y;
    } else {
      if Reachable(s, y) {
        var j: nat, q: Path :| IsFile(s, j) && ValidPath(q) && ZoneAt(s, j, q) == y;
        assert ZoneAt(u, j, q) == y;
      }
      if Reachable(u, y) {
        var j: nat, q: Path :| IsFile(u, j) && ValidPath(q) && ZoneAt(u, j, q) == y;
        assert j == i && q == p ==> y == z;
        assert ZoneAt(s, j, q) == y;
      }
    }
  }

  /** A zeroed new zone recorded at an empty place is one more zone there and nothing else. */
  lemma RecordNew(s: State, t: State, i: nat, p: Path, z: Zone)
    requires Tidy(s) && IsFile(s, i) && ValidPath(p) && HasParent(s, i, p) && ZoneAt(s, i, p) == 0 && DataZone(s, z) && !Bit(s, z)
    requires t == s.(zmap := s.zmap[z - s.first + 1 := true], disk := s.disk[z := ZeroBlock()])
    requires forall j: nat, q: Path | IsFile(s, j) && ValidPath(q) :: ZoneAt(s, j, q) != z && ZoneAt(t, j, q) == ZoneAt(s, j, q)
    ensures OneMore(s, SetAt(t, i, p, z), i, p, z)
  {
    forall j: nat, q: Path, k: nat, r: Path | IsFile(t, j) && ValidPath(q) && IsFile(t, k) && ValidPath(r) ensures Apart(t, j, q, k, r) {
      assert Apart(s, j, q, k, r);
    }
    var u := SetAt(t, i, p, z);
    SetAtItself(t, i, p, z);
    forall j: nat, q: Path | IsFile(s, j) && ValidPath(q) && (j != i || q != p) ensures ZoneAt(u, j, q) == ZoneAt(s, j, q) {
      SetAtOther(t, i, p, z, j, q);
    }
    forall j: nat, q: Path | IsFile(s, j) && ValidPath(q) && IsLeaf(q) && ZoneAt(s, j, q) != 0
      ensures u.disk[ZoneAt(s, j, q)] == s.disk[ZoneAt(s, j, q)]
    {
      SetAtData(t, i, p, z, j, q);
    }
  }

  lemma FillFresh(s: State, i: nat, p: Path)
    requires Tidy(s) && !s.panicked && IsFile(s, i) && ValidPath(p) && HasParent(s, i, p) && ZoneAt(s, i, p) == 0 && NewBlock(s).1 != 0
    ensures var (t, z) := Fill(s, i, p); Keeps(s, t, z, ZoneAt(t, i, p)) && !t.panicked && z != 0
  {
    NewBlockFresh(s);
    var (t, z) := NewBlock(s);
    var u := SetAt(t, i, p, z);
    RecordNew(s, t, i, p, z);
    OneMoreTidy(s, u, i, p, z);
    forall j: nat, q: Path | IsFile(s, j) && ValidPath(q) ensures GrownAt(s, u, j, q) {
    }
  }

  /** Each place of the way is below the one before it. */
  ghost predicate IsWay(way: seq<Path>) {
    && (forall k | 0 <= k < |way| :: ValidPath(way[k]))
    && forall k | 0 < k < |way| :: Parent(way[k]) == way[k - 1] && !way[k].Direct? && !way[k].Ind? && !way[k].Dind?
  }

  ghost function Parent(p: Path): Path {
    if p.DindLeaf? then DindMid(p.a) else if p.DindMid? then Dind else Ind
  }

  lemma {:induction false} FillWayKeeps(s: State, i: nat, way: seq<Path>)
    requires Tidy(s) && !s.panicked && IsFile(s, i) && way != [] && IsWay(way) && HasParent(s, i, way[0])
    ensures var (t, z) := FillWay(s, i, way); Keeps(s, t, z, ZoneAt(t, i, way[|way| - 1]))
    decreases |way|
  {
    FillKeeps(s, i, way[0]);
    var (t, z) := Fill(s, i, way[0]);
    if |way| > 1 && z != 0 {
      assert Parent(way[1]) == way[0];
      forall k | 0 < k < |way[1..]| ensures Parent(way[1..][k]) == way[1..][k - 1] && ValidPath(way[1..][k]) {
        assert way[1..][k] == way[k + 1] && way[1..][k - 1] == way[k];
      }
      FillWayKeeps(t, i, way[1..]);
      GrownTrans(s, t, FillWay(t, i, way[1..]).0);
    }
  }

  /** create_block, wherever it stops: no zone is lost and no byte of any file changes; it
      fails only on a full disk, and panics only if a free zone's buffer is in use. */
  lemma CreateBlockKeeps(s: State, i: nat, n: nat)
    requires Tidy(s) && !s.panicked && IsFile(s, i) && n < MAX_BLOCKS
    ensures var (t, z) := CreateBlock(s, i, n); Keeps(s, t, z, ZoneAt(t, i, Leaf(n)))
    ensures var t := CreateBlock(s, i, n).0; Conserved(s) && !t.panicked ==> Conserved(t)
  {
    assert HasParent(s, i, WayTo(n)[0]);
    FillWayKeeps(s, i, WayTo(n));
  }
}
