/** file_dev.c over the zone trees: a file is a sparse sequence of bytes. */
module FileData {
  import opened Zones
  import opened ZoneTree

  function Min(a: nat, b: nat): nat {
    if a < b then a else b
  }

  function Max(a: nat, b: nat): nat {
    if a < b then b else a
  }

  /** Bytes [off, off + |data|) of a block replaced. */
  function Splice(b: Block, off: nat, data: seq<Byte>): Block
    requires off + |data| <= 1024
  {
    b[..off] + data + b[off + |data|..]
  }

  /** One block's worth of file_write, into zone z. */
  function WriteChunk(s: State, i: nat, z: Zone, pos: nat, data: seq<Byte>): State
    requires IsFile(s, i) && pos % 1024 + |data| <= 1024
  {
    s.(disk := s.disk[z := Splice(s.disk[z], pos % 1024, data)],
       sizes := s.sizes[i := Max(s.sizes[i], pos + |data|)])
  }

  /** How many bytes the next block takes. */
  function Chunk(pos: nat, left: nat): (c: nat)
    ensures c <= left && pos % 1024 + c <= 1024 && (left > 0 ==> c > 0)
  {
    Min(1024 - pos % 1024, left)
  }

  /** file_read: the bytes of [pos, pos + n). */
  function Read(s: State, i: nat, pos: nat, n: nat): (r: seq<Byte>)
    requires IsFile(s, i)
    ensures |r| == n
    ensures forall k: nat | k < n :: r[k] == ByteAt(s, i, pos + k)
  {
    if n == 0 then [] else Read(s, i, pos, n - 1) + [ByteAt(s, i, pos + n - 1)]
  }

  lemma LeafInjective(n: nat, m: nat)
    requires n < MAX_BLOCKS && m < MAX_BLOCKS && Leaf(n) == Leaf(m)
    ensures n == m
  {
  }

  /** A data block is no index block, so writing it moves nothing in any tree. */
  lemma DataWriteKeepsTrees(s: State, i: nat, p: Path, b: Block, size: nat)
    requires Tidy(s) && IsFile(s, i) && ValidPath(p) && IsLeaf(p) && ZoneAt(s, i, p) != 0
    ensures var t := s.(disk := s.disk[ZoneAt(s, i, p) := b], sizes := s.sizes[i := size]);
      Tidy(t) && SameStray(s, t) && forall j: nat, q: Path | IsFile(s, j) && ValidPath(q) :: ZoneAt(t, j, q) == ZoneAt(s, j, q)
  {
    var t := s.(disk := s.disk[ZoneAt(s, i, p) := b], sizes := s.sizes[i := size]);
    forall j: nat, q: Path | IsFile(s, j) && ValidPath(q) ensures ZoneAt(t, j, q) == ZoneAt(s, j, q) {
      assert Apart(s, i, p, j, Ind) && Apart(s, i, p, j, Dind);
      if q.DindLeaf? {
        assert Apart(s, i, p, j, DindMid(q.a));
      }
    }
    SameTreesTidy(s, t);
  }

  lemma WriteChunkBytes(s: State, i: nat, pos: nat, data: seq<Byte>, j: nat, x: nat)
    requires Tidy(s) && IsFile(s, i) && pos / 1024 < MAX_BLOCKS && pos % 1024 + |data| <= 1024
    requires ZoneAt(s, i, Leaf(pos / 1024)) != 0 && IsFile(s, j)
    ensures var t := WriteChunk(s, i, ZoneAt(s, i, Leaf(pos / 1024)), pos, data);
      IsFile(t, j) && ByteAt(t, j, x) == if j == i && pos <= x < pos + |data| then data[x - pos] else ByteAt(s, j, x)
  {
    var p := Leaf(pos / 1024);
    var z := ZoneAt(s, i, p);
    var t := WriteChunk(s, i, z, pos, data);
    DataWriteKeepsTrees(s, i, p, Splice(s.disk[z], pos % 1024, data), Max(s.sizes[i], pos + |data|));
    assert pos <= x < pos + |data| ==> x / 1024 == pos / 1024;
    if x / 1024 < MAX_BLOCKS {
      var q := Leaf(x / 1024);
      if ZoneAt(s, j, q) == z {
        SameZone(s, j, q, i, p);
        LeafInjective(x / 1024, pos / 1024);
        assert x - x % 1024 == pos - pos % 1024;
      } else if j == i {
        assert x / 1024 != pos / 1024;
      }
    }
  }

  /** Byte x of file j after a write of the first n bytes of data at pos of file i. */
  ghost predicate ByteWritten(s: State, t: State, i: nat, pos: nat, data: seq<Byte>, n: nat, j: nat, x: nat)
    requires IsFile(s, j) && IsFile(t, j) && n <= |data|
  {
    ByteAt(t, j, x) == if j == i && pos <= x < pos + n then data[x - pos] else ByteAt(s, j, x)
  }

  /** What a write of the first n bytes of data at pos leaves behind. */
  ghost predicate Written(s: State, t: State, i: nat, pos: nat, data: seq<Byte>, n: nat)
    requires IsFile(s, i) && n <= |data|
  {
    && t.files == s.files && |t.roots| == |s.roots|
    && t.sizes == s.sizes[i := if n > 0 then Max(s.sizes[i], pos + n) else s.sizes[i]]
    && forall j: nat, x: nat {:trigger ByteWritten(s, t, i, pos, data, n, j, x)} | IsFile(s, j) :: ByteWritten(s, t, i, pos, data, n, j, x)
  }

  lemma WrittenThen(s: State, u: State, v: State, i: nat, pos: nat, data: seq<Byte>, c: nat, n: nat)
    requires IsFile(s, i) && c <= |data| && n <= |data| - c && 0 < c
    requires Written(s, u, i, pos, data, c) && Written(u, v, i, pos + c, data[c..], n)
    ensures Written(s, v, i, pos, data, c + n)
  {
    var m := c + n;
    forall j: nat, x: nat | IsFile(s, j) ensures ByteWritten(s, v, i, pos, data, m, j, x) {
      assert ByteWritten(s, u, i, pos, data, c, j, x) && ByteWritten(u, v, i, pos + c, data[c..], n, j, x);
    }
  }

  lemma NothingWritten(s: State, t: State, i: nat, pos: nat, data: seq<Byte>)
    requires Grown(s, t) && IsFile(s, i)
    ensures Written(s, t, i, pos, data, 0)
  {
    forall j: nat, x: nat | IsFile(s, j) ensures ByteWritten(s, t, i, pos, data, 0, j, x) {
      GrownBytes(s, t, j, x);
    }
  }

  /** One round of file_write: the block is found or created, then one chunk of it written. */
  lemma WriteRound(s: State, t: State, z: Zone, i: nat, pos: nat, data: seq<Byte>)
    requires Tidy(s) && !s.panicked && IsFile(s, i) && data != [] && pos / 1024 < MAX_BLOCKS
    requires CreateBlock(s, i, pos / 1024) == (t, z)
    ensures z == 0 ==> Tidy(t) && Written(s, t, i, pos, data, 0) && (!t.panicked ==> Full(t) && SameStray(s, t))
    ensures z != 0 ==> var c := Chunk(pos, |data|);
      var u := WriteChunk(t, i, z, pos, data[..c]);
      Tidy(u) && !u.panicked && SameStray(s, u) && u.held == t.held && Written(s, u, i, pos, data, c)
    ensures t.held == s.held && (HeldUsed(s) ==> !t.panicked && HeldUsed(t))
  {
    CreateBlockKeeps(s, i, pos / 1024);
    if z == 0 {
      NothingWritten(s, t, i, pos, data);
    } else {
      var c := Chunk(pos, |data|);
      var u := WriteChunk(t, i, z, pos, data[..c]);
      DataWriteKeepsTrees(t, i, Leaf(pos / 1024), Splice(t.disk[z], pos % 1024, data[..c]), Max(t.sizes[i], pos + c));
      forall j: nat, x: nat | IsFile(s, j) ensures ByteWritten(s, u, i, pos, data, c, j, x) {
        GrownBytes(s, t, j, x);
        WriteChunkBytes(t, i, pos, data[..c], j, x);
      }
    }
  }

  /** Writing nothing leaves everything. */
  lemma WrittenNothing(s: State, i: nat, pos: nat, data: seq<Byte>)
    requires IsFile(s, i)
    ensures Written(s, s, i, pos, data, 0)
  {
    forall j: nat, x: nat | IsFile(s, j) ensures ByteWritten(s, s, i, pos, data, 0, j, x) {
    }
  }

  /** Bytes past the end stay zero, gaps a write leaves behind included. */
  lemma WriteKeepsZeroTail(s: State, t: State, i: nat, pos: nat, data: seq<Byte>, n: nat)
    requires ZeroTail(s) && IsFile(s, i) && n <= |data| && Written(s, t, i, pos, data, n)
    ensures ZeroTail(t)
  {
    forall j: nat, x: nat | IsFile(t, j) && x >= t.sizes[j] ensures ByteAt(t, j, x) == 0 {
      assert IsFile(s, j) && x >= s.sizes[j];
      assert ByteWritten(s, t, i, pos, data, n, j, x);
    }
  }

  /** Reading back what was written, across block boundaries. */
  lemma ReadAfterWrite(s: State, t: State, i: nat, pos: nat, data: seq<Byte>, n: nat)
    requires IsFile(s, i) && n <= |data| && Written(s, t, i, pos, data, n)
    ensures IsFile(t, i) && Read(t, i, pos, n) == data[..n]
  {
    forall k: nat | k < n ensures Read(t, i, pos, n)[k] == data[k] {
      assert ByteWritten(s, t, i, pos, data, n, i, pos + k);
    }
  }

  /** Every other range, and every other file, reads as before. */
  lemma ReadElsewhere(s: State, t: State, i: nat, pos: nat, data: seq<Byte>, n: nat, j: nat, x: nat, m: nat)
    requires IsFile(s, i) && n <= |data| && Written(s, t, i, pos, data, n) && IsFile(s, j)
    requires j != i || x + m <= pos || pos + n <= x
    ensures IsFile(t, j) && Read(t, j, x, m) == Read(s, j, x, m)
  {
    forall y: nat | x <= y < x + m ensures ByteAt(t, j, y) == ByteAt(s, j, y) {
      assert ByteWritten(s, t, i, pos, data, n, j, y);
    }
  }

  // ---- a chunk for a zone that may have moved on -----------------------------------------------

  /** z is an index block of some file. */
  ghost predicate IsIndex(s: State, z: Zone) {
    exists j: nat, q: Path {:trigger ZoneAt(s, j, q)} :: IsFile(s, j) && ValidPath(q) && !IsLeaf(q) && ZoneAt(s, j, q) == z
  }

  /** z is a data block of file j. */
  ghost predicate HasLeaf(s: State, j: nat, z: Zone)
    requires IsFile(s, j)
  {
    exists q: Path {:trigger ZoneAt(s, j, q)} :: ValidPath(q) && IsLeaf(q) && ZoneAt(s, j, q) == z
  }

  /** Byte x of file j after data went into zone z from offset off on. */
  function LandedByte(s: State, z: Zone, off: nat, data: seq<Byte>, j: nat, x: nat): Byte
    requires IsFile(s, j)
  {
    if x / 1024 < MAX_BLOCKS && ZoneAt(s, j, Leaf(x / 1024)) == z && off <= x % 1024 < off + |data| then data[x % 1024 - off]
    else ByteAt(s, j, x)
  }

  /** Wherever it lands, a chunk in no index block moves no zone of any tree... */
  lemma LandedTrees(s: State, z: Zone, t: State)
    requires Tidy(s) && z != 0 && !IsIndex(s, z) && t == s.(disk := s.disk[z := t.disk[z]], sizes := t.sizes) && |t.sizes| == |s.sizes|
    ensures Tidy(t) && SameStray(s, t)
    ensures forall j: nat, q: Path | IsFile(s, j) && ValidPath(q) :: ZoneAt(t, j, q) == ZoneAt(s, j, q)
  {
    forall j: nat, q: Path | IsFile(s, j) && ValidPath(q) ensures ZoneAt(t, j, q) == ZoneAt(s, j, q) {
      assert ZoneAt(s, j, Ind) != z && ZoneAt(s, j, Dind) != z;
      assert q.DindLeaf? ==> ZoneAt(s, j, DindMid(q.a)) != z;
    }
    SameTreesTidy(s, t);
  }

  /** ... and changes the bytes of the file that has the zone now, if one has. */
  lemma LandedBytes(s: State, i: nat, z: Zone, pos: nat, data: seq<Byte>, j: nat, x: nat)
    requires Tidy(s) && IsFile(s, i) && z != 0 && !IsIndex(s, z) && pos % 1024 + |data| <= 1024 && IsFile(s, j)
    ensures ByteAt(WriteChunk(s, i, z, pos, data), j, x) == LandedByte(s, z, pos % 1024, data, j, x)
    ensures !HasLeaf(s, j, z) ==> ByteAt(WriteChunk(s, i, z, pos, data), j, x) == ByteAt(s, j, x)
  {
    var t := WriteChunk(s, i, z, pos, data);
    LandedTrees(s, z, t);
    if x / 1024 < MAX_BLOCKS {
      assert ZoneAt(t, j, Leaf(x / 1024)) == ZoneAt(s, j, Leaf(x / 1024));
    }
  }
}
