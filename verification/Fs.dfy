/** bitmap.c, inode.c, truncate.c and file_dev.c in their own form: bitmap, blocks and
    inode fields updated in place. */
module Fs {
  import opened Zones
  import opened ZoneTree
  import opened FileData
  import opened Truncation
  import opened Layout

  /** struct file: the position and the append flag. */
  class OpenFile {
    var pos: nat
    var append: bool

    constructor (append: bool)
      ensures pos == 0 && this.append == append
    {
      pos := 0;
      this.append := append;
    }
  }

  class FileSystem {
    const maps: nat              // bitmap blocks present, at most 8
    const zmap: array<bool>
    const disk: array<Block>
    const roots: array<Roots>    // i_zone[9] of each inode
    const sizes: array<nat>      // i_size
    const files: seq<bool>
    const first: nat
    const nzones: nat
    var held: multiset<Zone>     // b_count of a zone's buffer, this process's own aside
    var panicked: bool

    ghost predicate Valid() {
      maps <= 8 && zmap.Length == maps * 8192 && disk.Length == 0x1_0000
    }

    ghost function Abs(): State
      requires Valid()
      reads this, zmap, disk, roots, sizes
    {
      State(zmap[..], first, nzones, disk[..], files, roots[..], sizes[..], held, panicked)
    }

    constructor (zmap: array<bool>, maps: nat, disk: array<Block>, roots: array<Roots>, sizes: array<nat>, files: seq<bool>, first: nat, nzones: nat, held: multiset<Zone>)
      requires maps <= 8 && zmap.Length == maps * 8192 && disk.Length == 0x1_0000
      ensures Valid() && Abs() == State(zmap[..], first, nzones, disk[..], files, roots[..], sizes[..], held, false)
    {
      this.maps := maps;
      this.zmap := zmap;
      this.disk := disk;
      this.roots := roots;
      this.sizes := sizes;
      this.files := files;
      this.first := first;
      this.nzones := nzones;
      this.held := held;
      panicked := false;
    }

    /** find_first_zero on bitmap block m: 8192 when it has none. */
    method FindFirstZero(m: nat) returns (j: nat)
      requires Valid() && m < maps
      ensures j <= 8192 && (forall k | m * 8192 <= k < m * 8192 + j :: zmap[k]) && (j < 8192 ==> !zmap[m * 8192 + j])
    {
      j := 0;
      while j < 8192 && zmap[m * 8192 + j]
        invariant j <= 8192 && forall k | m * 8192 <= k < m * 8192 + j :: zmap[k]
      {
        j := j + 1;
      }
    }

    method NewBlock() returns (z: Zone)
      requires Valid() && ShapeOk(Abs())
      modifies zmap, disk, this`panicked
      ensures (Abs(), z) == Zones.NewBlock(old(Abs()))
    {
      var i, j := 0, 8192;
      while i < maps
        invariant i <= maps && j == 8192 && Abs() == old(Abs())
        invariant forall k | 0 <= k < i * 8192 :: zmap[k]
      {
        j := FindFirstZero(i);
        if j < 8192 {
          break;
        }
        i := i + 1;
      }
      if i >= maps || j >= 8192 {
        assert FirstZero(zmap[..], 0) == |zmap[..]|;
        return 0;
      }
      ghost var before := Abs();
      FirstZeroIs(before.zmap, 0, i * 8192 + j);
      zmap[i * 8192 + j] := true;
      var n := j + i * 8192 + first - 1;
      if n >= nzones {
        return 0;
      }
      if held[n] > 0 {
        panicked := true;
        return 0;
      }
      disk[n] := ZeroBlock();
      return n;
    }

    /** free_block; `seen` are the zones whose buffer it finds counted by somebody else. */
    method FreeBlock(z: Zone, seen: set<Zone>)
      requires Valid() && ShapeOk(Abs())
      modifies zmap, this`panicked, this`held
      ensures Abs() == Zones.FreeBlock(old(Abs()), z, seen)
    {
      if z < first || z >= nzones {
        panicked := true;
        return;
      }
      if z in seen {
        held := held[z := held[z] + 1];
        return;
      }
      if !zmap[z - first + 1] {
        panicked := true;
        return;
      }
      zmap[z - first + 1] := false;
    }

    /** `if (create && !i_zone[k]) i_zone[k] = new_block()`. */
    method RootZone(i: nat, k: nat, p: Path, create: bool) returns (z: Zone)
      requires Valid() && ShapeOk(Abs()) && IsFile(Abs(), i) && k < 9
      requires ValidPath(p) && match p case Direct(j) => j == k case Ind => k == 7 case Dind => k == 8 case _ => false
      modifies zmap, disk, roots, this`panicked
      ensures create ==> (Abs(), z) == Fill(old(Abs()), i, p)
      ensures !create ==> Abs() == old(Abs()) && z == ZoneAt(Abs(), i, p)
    {
      if create && roots[i][k] == 0 {
        var y := NewBlock();
        if y != 0 {
          roots[i] := roots[i][k := y];
        }
        return y;
      }
      return roots[i][k];
    }

    /** The same for entry k of an indirect block. */
    method IndirectZone(i: nat, block: Zone, k: nat, p: Path, create: bool) returns (z: Zone)
      requires Valid() && Tidy(Abs()) && IsFile(Abs(), i) && k < POINTERS
      requires ValidPath(p) && HasParent(Abs(), i, p) && !p.Direct? && !p.Ind? && !p.Dind?
      requires block == ZoneAt(Abs(), i, Parent(p)) && k == if p.DindLeaf? then p.b else p.a
      modifies zmap, disk, this`panicked
      ensures create ==> (Abs(), z) == Fill(old(Abs()), i, p)
      ensures !create ==> Abs() == old(Abs()) && z == ZoneAt(Abs(), i, p)
    {
      z := Ptr(disk[block], k);
      if create && z == 0 {
        ghost var s := Abs();
        z := NewBlock();
        if z != 0 {
          NewBlockFresh(s);
          disk[block] := SetPtr(disk[block], k, z);
        }
      }
    }

    /** _bmap: bmap when create is false, create_block when it is true. */
    method Bmap(i: nat, block: nat, create: bool) returns (z: Zone)
      requires Valid() && Tidy(Abs()) && !panicked && IsFile(Abs(), i)
      modifies zmap, disk, roots, this`panicked
      ensures create ==> (Abs(), z) == CreateBlock(old(Abs()), i, block)
      ensures !create && block < MAX_BLOCKS ==> Abs() == old(Abs()) && z == ZoneAt(old(Abs()), i, Leaf(block))
      ensures !create && block >= MAX_BLOCKS ==> Abs() == Zones.Panic(old(Abs())) && z == 0
      ensures block < MAX_BLOCKS ==> z == OnDisk(roots[i], disk[..], block)
      ensures forall j: nat, m: nat | block < MAX_BLOCKS && IsFile(old(Abs()), j) && m < MAX_BLOCKS && (j != i || m != block) ::
        OnDisk(roots[j], disk[..], m) == OnDisk(old(roots[j]), old(disk[..]), m)
    {
      z := BmapPlaces(i, block, create);
      if block < MAX_BLOCKS {
        if !create {
          LeafOnDisk(Abs(), i, block);
        }
        forall j: nat, m: nat | create && IsFile(old(Abs()), j) && m < MAX_BLOCKS
          ensures OnDisk(roots[j], disk[..], m) == if j == i && m == block then z else OnDisk(old(roots[j]), old(disk[..]), m)
        {
          CreatedOnDisk(old(Abs()), i, block, j, m);
        }
      }
    }

    /** Its branches. */
    method BmapPlaces(i: nat, block: nat, create: bool) returns (z: Zone)
      requires Valid() && Tidy(Abs()) && !panicked && IsFile(Abs(), i)
      modifies zmap, disk, roots, this`panicked
      ensures create ==> (Abs(), z) == CreateBlock(old(Abs()), i, block)
      ensures !create && block < MAX_BLOCKS ==> Abs() == old(Abs()) && z == ZoneAt(old(Abs()), i, Leaf(block))
      ensures !create && block >= MAX_BLOCKS ==> Abs() == Zones.Panic(old(Abs())) && z == 0
    {
      ghost var s := Abs();
      if block >= MAX_BLOCKS {
        panicked := true;
        return 0;
      }
      if block < 7 {
        z := RootZone(i, block, Direct(block), create);
        return z;
      }
      if block < 7 + 512 {
        z := RootZone(i, 7, Ind, create);
        ghost var t := Abs();
        Way2(s, i, Ind, IndLeaf(block - 7));
        if z == 0 {
          return 0;
        }
        if create {
          FillKeeps(s, i, Ind);
        }
        z := IndirectZone(i, z, block - 7, IndLeaf(block - 7), create);
        return z;
      }
      var a, b := (block - 519) / 512, (block - 519) % 512;
      z := RootZone(i, 8, Dind, create);
      Way3(s, i, Dind, DindMid(a), DindLeaf(a, b));
      if z == 0 {
        return 0;
      }
      if create {
        FillKeeps(s, i, Dind);
      }
      ghost var t := Abs();
      z := IndirectZone(i, z, a, DindMid(a), create);
      if z == 0 {
        return 0;
      }
      if create {
        FillKeeps(t, i, DindMid(a));
      }
      z := IndirectZone(i, z, b, DindLeaf(a, b), create);
    }

    method FreeInd(block: Zone, bad: set<Zone>, seen: set<Zone>)
      requires Valid() && ShapeOk(Abs())
      modifies zmap, this`panicked, this`held
      ensures Abs() == Truncation.FreeInd(old(Abs()), block, bad, seen)
    {
      if block == 0 {
        return;
      }
      if block !in bad {
        ghost var zs := Pointers(disk[block]);
        var k := 0;
        while k < 512
          invariant k <= 512 && ShapeOk(Abs())
          invariant FreeLeaves(Abs(), zs[k..], seen) == FreeLeaves(old(Abs()), zs, seen)
        {
          var p := Ptr(disk[block], k);
          assert zs[k..][0] == p && zs[k..][1..] == zs[k + 1..];
          if p != 0 {
            FreeBlock(p, seen);
          }
          k := k + 1;
        }
      }
      FreeBlock(block, seen);
    }

    method FreeDind(block: Zone, bad: set<Zone>, seen: set<Zone>)
      requires Valid() && ShapeOk(Abs())
      modifies zmap, this`panicked, this`held
      ensures Abs() == Truncation.FreeDind(old(Abs()), block, bad, seen)
    {
      if block == 0 {
        return;
      }
      if block !in bad {
        ghost var zs := Pointers(disk[block]);
        var k := 0;
        while k < 512
          invariant k <= 512 && ShapeOk(Abs())
          invariant FreeMids(Abs(), zs[k..], bad, seen) == FreeMids(old(Abs()), zs, bad, seen)
        {
          assert zs[k..][0] == Ptr(disk[block], k) && zs[k..][1..] == zs[k + 1..];
          FreeInd(Ptr(disk[block], k), bad, seen);
          k := k + 1;
        }
      }
      FreeBlock(block, seen);
    }

    method FreeDirectZone(i: nat, k: nat, ghost r: seq<Roots>, seen: set<Zone>)
      requires Valid() && ShapeOk(Abs()) && IsFile(Abs(), i) && k < 7 && |r| == roots.Length
      modifies zmap, roots, this`panicked, this`held
      ensures ShapeOk(Abs()) && roots[..] == old(roots[..])[i := old(roots[i])[k := 0]]
      ensures Abs().(roots := r) == var t := old(Abs()).(roots := r); if old(roots[i][k]) != 0 then Zones.FreeBlock(t, old(roots[i][k]), seen) else t
    {
      if roots[i][k] != 0 {
        FreeBlock(roots[i][k], seen);
        roots[i] := roots[i][k := 0];
      }
      assert roots[i] == old(roots[i])[k := 0];
    }

    /** The first loop of truncate. */
    method FreeDirectZones(i: nat, seen: set<Zone>)
      requires Valid() && ShapeOk(Abs()) && IsFile(Abs(), i)
      modifies zmap, roots, this`panicked, this`held
      ensures Abs() == FreeDirect(old(Abs()), i, seen)
    {
      ghost var s := Abs();
      ghost var zs := roots[i][..DIRECT];
      var k := 0;
      while k < 7
        invariant k <= 7 && ShapeOk(Abs())
        invariant roots[..] == s.roots[i := roots[i]] && forall m | 0 <= m < 9 :: roots[i][m] == if m < k then 0 else s.roots[i][m]
        invariant BitmapOnly(s, Abs().(roots := s.roots))
        invariant FreeLeaves(Abs().(roots := s.roots), zs[k..], seen) == FreeLeaves(s, zs, seen)
      {
        assert zs[k..][0] == roots[i][k] && zs[k..][1..] == zs[k + 1..];
        FreeDirectZone(i, k, s.roots, seen);
        k := k + 1;
      }
      assert roots[i] == ZeroDirect(s.roots[i]);
    }

    /** truncate, where the blocks of `bad` cannot be read and those of `seen` are found
        counted; what it leaves behind is TruncateExact. */
    method Truncate(i: nat, bad: set<Zone>, seen: set<Zone>)
      requires Valid() && Tidy(Abs()) && i < |files|
      modifies zmap, roots, sizes, this`panicked, this`held
      ensures Abs() == Truncation.Truncate(old(Abs()), i, bad, seen) && Tidy(Abs()) && panicked == old(panicked)
      ensures if files[i] then sizes[i] == 0 && roots[i] == [0, 0, 0, 0, 0, 0, 0, 0, 0] else Abs() == old(Abs())
    {
      if !files[i] {
        return;
      }
      ghost var s := Abs();
      FreeDirectZones(i, seen);
      FreeInd(roots[i][7], bad, seen);
      FreeDind(roots[i][8], bad, seen);
      ghost var v := Abs();
      roots[i] := roots[i][7 := 0][8 := 0];
      sizes[i] := 0;
      assert Abs() == ClearInode(v, i);
      TruncateExact(s, i, bad, seen);
    }

    /** file_read: bytes of the file, holes as zeroes, the position moved past them. It
        panics, in _bmap, exactly when asked to read past the largest block. */
    method FileRead(i: nat, filp: OpenFile, count: int) returns (buf: seq<Byte>, result: int)
      requires Valid() && Tidy(Abs()) && !panicked && IsFile(Abs(), i)
      modifies filp`pos, this`panicked, zmap, disk, roots
      ensures panicked <==> count > 0 && old(filp.pos) + count > MAX_BLOCKS * 1024
      ensures Abs().(panicked := false) == old(Abs())
      ensures !panicked && count > 0 ==> buf == Read(old(Abs()), i, old(filp.pos), count) && filp.pos == old(filp.pos) + count && result == count
      ensures count <= 0 ==> buf == [] && filp.pos == old(filp.pos) && result == 0
      ensures !panicked ==> IsRaw(old(roots[i]), old(disk[..]), old(filp.pos), buf)
    {
      buf := [];
      if count <= 0 {
        return buf, 0;
      }
      ghost var s, start := Abs(), filp.pos;
      var left := count;
      while left > 0
        invariant 0 <= left <= count && Abs() == s && filp.pos == start + |buf| && |buf| + left == count
        invariant left < count ==> filp.pos <= MAX_BLOCKS * 1024
        invariant IsRead(s, i, start, buf)
      {
        var chunk := ReadBlock(i, filp.pos, left);
        if panicked {
          return buf, -1;
        }
        ReadMore(s, i, start, buf, chunk);
        buf := buf + chunk;
        filp.pos := filp.pos + |chunk|;
        left := left - |chunk|;
      }
      ReadIsRaw(s, i, start, buf);
      return buf, count;
    }

    /** One round of file_read: up to the end of the block at pos. */
    method ReadBlock(i: nat, pos: nat, left: nat) returns (chunk: seq<Byte>)
      requires Valid() && Tidy(Abs()) && !panicked && IsFile(Abs(), i) && left > 0
      modifies this`panicked, zmap, disk, roots
      ensures panicked <==> pos >= MAX_BLOCKS * 1024
      ensures Abs() == if panicked then Zones.Panic(old(Abs())) else old(Abs())
      ensures !panicked ==> 0 < |chunk| <= left && pos + |chunk| <= MAX_BLOCKS * 1024 && IsRead(old(Abs()), i, pos, chunk)
    {
      ghost var s := Abs();
      chunk := [];
      var z := Bmap(i, pos / 1024, false);
      if panicked {
        return;
      }
      var nr := pos % 1024;
      var chars := Min(1024 - nr, left);
      chunk := if z != 0 then disk[z][nr..nr + chars] else ZeroBlock()[..chars];
      ChunkBytes(s, i, pos, chunk);
    }

    /** One round of file_write: up to the end of the block at pos; 0 when it stops. */
    method WriteBlock(i: nat, pos: nat, data: seq<Byte>) returns (c: nat)
      requires Valid() && Tidy(Abs()) && !panicked && IsFile(Abs(), i) && data != []
      modifies this`panicked, zmap, disk, roots, sizes
      ensures c <= |data| && (panicked ==> c == 0)
      ensures pos / 1024 >= MAX_BLOCKS ==> Abs() == Zones.Panic(old(Abs()))
      ensures pos / 1024 < MAX_BLOCKS ==>
        Tidy(Abs()) && Written(old(Abs()), Abs(), i, pos, data, c) && (HeldUsed(old(Abs())) ==> !panicked && HeldUsed(Abs()))
      ensures !panicked ==> SameStray(old(Abs()), Abs()) && (c == 0 ==> Full(Abs()))
    {
      ghost var s := Abs();
      var z := Bmap(i, pos / 1024, true);
      if pos / 1024 >= MAX_BLOCKS {
        return 0;
      }
      ghost var t := Abs();
      WriteRound(s, t, z, i, pos, data);
      if z == 0 {
        return 0;
      }
      c := Chunk(pos, |data|);
      disk[z] := Splice(disk[z], pos % 1024, data[..c]);
      sizes[i] := Max(sizes[i], pos + c);
      assert Abs() == WriteChunk(t, i, z, pos, data[..c]);
    }

    /** file_write: n bytes reach the file, all of them unless the disk fills up, the write
        runs past the largest block, where _bmap panics, or new_block panics over a counted
        buffer of a free zone. */
    method FileWrite(i: nat, filp: OpenFile, data: seq<Byte>) returns (result: int, ghost n: nat)
      requires Valid() && Tidy(Abs()) && ZeroTail(Abs()) && !panicked && IsFile(Abs(), i)
      modifies filp`pos, this`panicked, zmap, disk, roots, sizes
      ensures n <= |data| && Tidy(Abs()) && ZeroTail(Abs())
      ensures Written(old(Abs()), Abs(), i, if filp.append then old(sizes[i]) else old(filp.pos), data, n)
      ensures HeldUsed(old(Abs())) ==>
        (panicked <==> n < |data| && ((if filp.append then old(sizes[i]) else old(filp.pos)) + n) / 1024 >= MAX_BLOCKS)
      ensures n < |data| && !panicked ==> Full(Abs())
      ensures !panicked || HeldUsed(old(Abs())) ==> SameStray(old(Abs()), Abs())
      ensures result == if n > 0 then n else -1
      ensures filp.pos == if filp.append then old(filp.pos) else old(filp.pos) + n
    {
      ghost var s := Abs();
      var pos := if filp.append then sizes[i] else filp.pos;
      var k := WriteBlocks(i, pos, data);
      n := k;
      WriteKeepsZeroTail(s, Abs(), i, pos, data, n);
      if !filp.append {
        filp.pos := pos + k;
      }
      return if k > 0 then k else -1, n;
    }

    method WriteBlocks(i: nat, start: nat, data: seq<Byte>) returns (k: nat)
      requires Valid() && Tidy(Abs()) && IsFile(Abs(), i) && !panicked
      modifies this`panicked, zmap, disk, roots, sizes
      ensures k <= |data| && Tidy(Abs()) && Written(old(Abs()), Abs(), i, start, data, k)
      ensures HeldUsed(old(Abs())) ==> (panicked <==> k < |data| && (start + k) / 1024 >= MAX_BLOCKS)
      ensures k < |data| && !panicked ==> Full(Abs())
      ensures !panicked || HeldUsed(old(Abs())) ==> SameStray(old(Abs()), Abs())
    {
      ghost var s := Abs();
      var pos := start;
      k := 0;
      WrittenNothing(s, i, start, data);
      while k < |data|
        invariant k <= |data| && pos == start + k && !panicked && (k == 0 ==> Abs() == s)
        invariant Tidy(Abs()) && IsFile(Abs(), i) && Written(s, Abs(), i, start, data, k) && SameStray(s, Abs())
        invariant HeldUsed(s) ==> HeldUsed(Abs())
      {
        ghost var u := Abs();
        var c := WriteBlock(i, pos, data[k..]);
        if pos / 1024 >= MAX_BLOCKS {
          PanicKeeps(u, i, pos, data[k..]);
        }
        assert k == 0 ==> data[k..] == data;
        if k > 0 {
          WrittenThen(s, u, Abs(), i, start, data, k, c);
        }
        pos, k := pos + c, k + c;
        if c == 0 {
          break;
        }
      }
    }
  }

  lemma PanicKeeps(s: State, i: nat, pos: nat, data: seq<Byte>)
    requires Tidy(s) && IsFile(s, i)
    ensures var t := Zones.Panic(s); Tidy(t) && SameStray(s, t) && Written(s, t, i, pos, data, 0)
  {
    var t := Zones.Panic(s);
    SameTreesTidy(s, t);
    forall j: nat, x: nat | IsFile(s, j) ensures ByteWritten(s, t, i, pos, data, 0, j, x) {
    }
  }

  lemma SameBlock(pos: nat, k: nat)
    requires pos % 1024 + k < 1024
    ensures (pos + k) / 1024 == pos / 1024 && (pos + k) % 1024 == pos % 1024 + k
  {
  }

  lemma ChunkByte(s: State, i: nat, pos: nat, k: nat)
    requires IsFile(s, i) && pos / 1024 < MAX_BLOCKS && pos % 1024 + k < 1024
    ensures ByteAt(s, i, pos + k) == var z := ZoneAt(s, i, Leaf(pos / 1024)); if z != 0 then s.disk[z][pos % 1024 + k] else 0
  {
    SameBlock(pos, k);
  }

  /** The bytes of one block, or zeroes for a hole, are those of the file. */
  lemma ChunkBytes(s: State, i: nat, pos: nat, chunk: seq<Byte>)
    requires IsFile(s, i) && pos / 1024 < MAX_BLOCKS && pos % 1024 + |chunk| <= 1024
    requires var z := ZoneAt(s, i, Leaf(pos / 1024));
      chunk == if z != 0 then s.disk[z][pos % 1024..pos % 1024 + |chunk|] else ZeroBlock()[..|chunk|]
    ensures IsRead(s, i, pos, chunk)
  {
    var r := Read(s, i, pos, |chunk|);
    forall k: nat | k < |chunk| ensures chunk[k] == r[k] {
      ChunkByte(s, i, pos, k);
    }
  }

  /** The bytes at pos, found through zone numbers and index blocks. */
  ghost predicate IsRaw(r: Roots, d: Disk, pos: nat, bytes: seq<Byte>) {
    forall k: nat {:trigger bytes[k]} | k < |bytes| :: bytes[k] == RawByte(r, d, pos + k)
  }

  lemma ReadIsRaw(s: State, i: nat, pos: nat, bytes: seq<Byte>)
    requires IsFile(s, i) && IsRead(s, i, pos, bytes)
    ensures IsRaw(s.roots[i], s.disk, pos, bytes)
  {
    forall k: nat | k < |bytes| ensures bytes[k] == RawByte(s.roots[i], s.disk, pos + k) {
      ByteOnDisk(s, i, pos + k);
      assert bytes[k] == Read(s, i, pos, |bytes|)[k];
    }
  }

  ghost predicate IsRead(s: State, i: nat, pos: nat, bytes: seq<Byte>)
    requires IsFile(s, i)
  {
    bytes == Read(s, i, pos, |bytes|)
  }

  lemma ReadMore(s: State, i: nat, pos: nat, a: seq<Byte>, b: seq<Byte>)
    requires IsFile(s, i) && IsRead(s, i, pos, a) && IsRead(s, i, pos + |a|, b)
    ensures IsRead(s, i, pos, a + b)
  {
    var n := |a|;
    var r := Read(s, i, pos, n + |b|);
    forall k: nat | k < |r| ensures (a + b)[k] == r[k] {
      assert k >= n ==> b[k - n] == ByteAt(s, i, pos + n + (k - n));
    }
  }

  lemma {:induction false} FirstZeroIs(m: seq<bool>, j: nat, r: nat)
    requires j <= r < |m| && !m[r] && forall k | j <= k < r :: m[k]
    ensures FirstZero(m, j) == r
    decreases r - j
  {
    if j < r {
      FirstZeroIs(m, j + 1, r);
    }
  }

  lemma Way2(s: State, i: nat, p: Path, q: Path)
    requires ShapeOk(s) && IsFile(s, i) && ValidPath(p) && ValidPath(q)
    ensures FillWay(s, i, [p, q]) == if Fill(s, i, p).1 == 0 then Fill(s, i, p) else Fill(Fill(s, i, p).0, i, q)
  {
  }

  lemma Way3(s: State, i: nat, p: Path, q: Path, r: Path)
    requires ShapeOk(s) && IsFile(s, i) && ValidPath(p) && ValidPath(q) && ValidPath(r)
    ensures FillWay(s, i, [p, q, r]) == if Fill(s, i, p).1 == 0 then Fill(s, i, p) else FillWay(Fill(s, i, p).0, i, [q, r])
  {
    assert [p, q, r][1..] == [q, r];
  }
}
