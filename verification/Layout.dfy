/** Where a minix file keeps its blocks, in the bytes of the disk: nine zone numbers in the inode,
    and index blocks of 512 little-endian words. */
module Layout {
  import opened Zones
  import opened ZoneTree

  /** The zone of block n of a file with zone numbers r, 0 for a hole. */
  ghost function OnDisk(r: Roots, d: Disk, n: nat): (z: int)
    requires n < 7 + 512 + 512 * 512
    ensures 0 <= z < 0x1_0000
  {
    if n < 7 then r[n]
    else if n < 519 then
      if r[7] == 0 then 0 else d[r[7]][2 * (n - 7)] as int + 256 * d[r[7]][2 * (n - 7) + 1] as int
    else if r[8] == 0 then 0
    else
      var m: int := (n - 519) / 512;
      var k: int := (n - 519) % 512;
      var index: int := d[r[8]][2 * m] as int + 256 * d[r[8]][2 * m + 1] as int;
      if index == 0 then 0 else d[index][2 * k] as int + 256 * d[index][2 * k + 1] as int
  }

  /** The tree's places are these. */
  lemma LeafOnDisk(s: State, i: nat, n: nat)
    requires IsFile(s, i) && n < MAX_BLOCKS
    ensures ZoneAt(s, i, Leaf(n)) == OnDisk(s.roots[i], s.disk, n)
  {
  }

  /** Byte x is byte x % 1024 of the zone of block x / 1024; a hole reads as zero. */
  ghost function RawByte(r: Roots, d: Disk, x: nat): Byte {
    if x / 1024 >= 7 + 512 + 512 * 512 then 0
    else
      var z := OnDisk(r, d, x / 1024);
      if z == 0 then 0 else d[z][x % 1024]
  }

  lemma ByteOnDisk(s: State, i: nat, x: nat)
    requires IsFile(s, i)
    ensures ByteAt(s, i, x) == RawByte(s.roots[i], s.disk, x)
  {
    if x / 1024 < MAX_BLOCKS {
      LeafOnDisk(s, i, x / 1024);
    }
  }

  lemma FillOther(s: State, i: nat, p: Path, j: nat, q: Path)
    requires Tidy(s) && !s.panicked && IsFile(s, i) && ValidPath(p) && HasParent(s, i, p)
    requires IsFile(s, j) && ValidPath(q) && (j != i || q != p)
    ensures var t := Fill(s, i, p).0; IsFile(t, j) && ZoneAt(t, j, q) == ZoneAt(s, j, q)
  {
    if ZoneAt(s, i, p) == 0 {
      var (t, z) := NewBlock(s);
      if z != 0 {
        NewBlockFresh(s);
        RecordNew(s, t, i, p, z);
      }
    }
  }

  lemma {:induction false} FillWayOther(s: State, i: nat, way: seq<Path>, j: nat, q: Path)
    requires Tidy(s) && !s.panicked && IsFile(s, i) && way != [] && IsWay(way) && HasParent(s, i, way[0])
    requires IsFile(s, j) && ValidPath(q) && (j != i || q !in way)
    ensures var t := FillWay(s, i, way).0; IsFile(t, j) && ZoneAt(t, j, q) == ZoneAt(s, j, q)
    decreases |way|
  {
    FillKeeps(s, i, way[0]);
    FillOther(s, i, way[0], j, q);
    var (t, z) := Fill(s, i, way[0]);
    if |way| > 1 && z != 0 {
      assert Parent(way[1]) == way[0];
      forall k | 0 < k < |way[1..]| ensures Parent(way[1..][k]) == way[1..][k - 1] && ValidPath(way[1..][k]) {
        assert way[1..][k] == way[k + 1] && way[1..][k - 1] == way[k];
      }
      FillWayOther(t, i, way[1..], j, q);
    }
  }

  /** Below an empty place there is nothing. */
  lemma {:induction false} EmptyDown(s: State, i: nat, way: seq<Path>)
    requires IsFile(s, i) && way != [] && IsWay(way) && ZoneAt(s, i, way[0]) == 0
    ensures ZoneAt(s, i, way[|way| - 1]) == 0
    decreases |way|
  {
    if |way| > 1 {
      assert Parent(way[1]) == way[0];
      forall k | 0 < k < |way[1..]| ensures Parent(way[1..][k]) == way[1..][k - 1] && ValidPath(way[1..][k]) {
        assert way[1..][k] == way[k + 1] && way[1..][k - 1] == way[k];
      }
      EmptyDown(s, i, way[1..]);
    }
  }

  /** A way that could not be filled ends in nothing. */
  lemma {:induction false} FillWayNone(s: State, i: nat, way: seq<Path>)
    requires Tidy(s) && !s.panicked && IsFile(s, i) && way != [] && IsWay(way) && HasParent(s, i, way[0])
    requires FillWay(s, i, way).1 == 0
    ensures ZoneAt(FillWay(s, i, way).0, i, way[|way| - 1]) == 0
    decreases |way|
  {
    FillKeeps(s, i, way[0]);
    var (t, z) := Fill(s, i, way[0]);
    if z == 0 {
      assert ZoneAt(t, i, way[0]) == 0;
      EmptyDown(t, i, way);
    } else {
      assert |way| > 1 && Parent(way[1]) == way[0];
      forall k | 0 < k < |way[1..]| ensures Parent(way[1..][k]) == way[1..][k - 1] && ValidPath(way[1..][k]) {
        assert way[1..][k] == way[k + 1] && way[1..][k - 1] == way[k];
      }
      FillWayNone(t, i, way[1..]);
    }
  }

  /** create_block records the zone it returns for block n, as the disk has it, and moves no
      other block of any file; where it returns none, it moves none. */
  lemma CreatedOnDisk(s: State, i: nat, n: nat, j: nat, m: nat)
    requires Tidy(s) && !s.panicked && IsFile(s, i) && n < MAX_BLOCKS && IsFile(s, j) && m < MAX_BLOCKS
    ensures var (t, z) := CreateBlock(s, i, n);
      IsFile(t, j) && OnDisk(t.roots[j], t.disk, m) == if j == i && m == n then z else OnDisk(s.roots[j], s.disk, m)
  {
    var (t, z) := CreateBlock(s, i, n);
    CreateBlockKeeps(s, i, n);
    LeafOnDisk(s, j, m);
    LeafOnDisk(t, j, m);
    CreatedLeaf(s, i, n, j, m);
  }

  lemma CreatedLeaf(s: State, i: nat, n: nat, j: nat, m: nat)
    requires Tidy(s) && !s.panicked && IsFile(s, i) && n < MAX_BLOCKS && IsFile(s, j) && m < MAX_BLOCKS
    ensures var (t, z) := CreateBlock(s, i, n);
      IsFile(t, j) && ZoneAt(t, j, Leaf(m)) == if j == i && m == n then z else ZoneAt(s, j, Leaf(m))
  {
    var (t, z) := CreateBlock(s, i, n);
    CreateBlockKeeps(s, i, n);
    assert HasParent(s, i, WayTo(n)[0]) && IsWay(WayTo(n));
    if j != i || m != n {
      if m != n {
        LeafNotOnWay(n, m);
      }
      FillWayOther(s, i, WayTo(n), j, Leaf(m));
    } else if z == 0 {
      FillWayNone(s, i, WayTo(n));
    }
  }

  lemma LeafNotOnWay(n: nat, m: nat)
    requires n < MAX_BLOCKS && m < MAX_BLOCKS && m != n
    ensures Leaf(m) !in WayTo(n)
  {
  }
}
