/** The minix file system as inode.c, bitmap.c, truncate.c and file_dev.c see it: a
    zone bitmap, blocks of bytes, and inodes whose nine zone numbers root a tree of
    7 + 512 + 512 * 512 blocks. */
module Zones {

  const BLOCK_SIZE: nat := 1024
  const POINTERS: nat := 512
  const DIRECT: nat := 7
  const MAX_BLOCKS: nat := 7 + 512 + 512 * 512

  type Byte = b: nat | b < 256
  type Zone = z: nat | z < 0x1_0000
  type Block = b: seq<Byte> | |b| == 1024 ghost witness seq(1024, _ => 0)
  type Disk = d: seq<Block> | |d| == 0x1_0000 ghost witness ZeroBlocks()
  type Roots = r: seq<Zone> | |r| == 9 ghost witness [0, 0, 0, 0, 0, 0, 0, 0, 0]

  /** `files[i]` tells whether inode i is a regular file or a directory; `zmap` is the
      zone bitmap, its blocks one after the other. Bit j stands for zone j + first - 1.
      `held[z]` is how often other processes have counted the buffer of zone z. */
  datatype State = State(
    zmap: seq<bool>, first: nat, nzones: nat, disk: Disk,
    files: seq<bool>, roots: seq<Roots>, sizes: seq<nat>, held: multiset<Zone>, panicked: bool)

  /** A place in the tree of one inode that can hold a zone number. */
  datatype Path =
    | Direct(k: nat)
    | Ind
    | IndLeaf(a: nat)
    | Dind
    | DindMid(a: nat)
    | DindLeaf(a: nat, b: nat)

  function ZeroBlock(): Block {
    seq(1024, _ => 0)
  }

  function ZeroBlocks(): (d: seq<Block>)
    ensures |d| == 0x1_0000
  {
    var blocks: seq<Block> := seq(0x1_0000, _ => ZeroBlock());
    blocks
  }

  /** The k-th unsigned short of a block. */
  function Ptr(b: Block, k: nat): Zone
    requires k < POINTERS
  {
    b[2 * k] as int + 256 * (b[2 * k + 1] as int)
  }

  function SetPtr(b: Block, k: nat, z: Zone): (c: Block)
    requires k < POINTERS
    ensures Ptr(c, k) == z
    ensures forall j: nat | j < POINTERS && j != k :: Ptr(c, j) == Ptr(b, j)
  {
    b[2 * k := z % 256][2 * k + 1 := z / 256]
  }

  lemma ZeroPointers()
    ensures forall k: nat | k < POINTERS :: Ptr(ZeroBlock(), k) == 0
  {
  }

  predicate ValidPath(p: Path) {
    match p
    case Direct(k) => k < DIRECT
    case IndLeaf(a) => a < POINTERS
    case DindMid(a) => a < POINTERS
    case DindLeaf(a, b) => a < POINTERS && b < POINTERS
    case _ => true
  }

  /** Inode i is a file with a tree of zones. */
  predicate IsFile(s: State, i: nat) {
    i < |s.files| && s.files[i] && i < |s.roots| && i < |s.sizes|
  }

  /** The zone number at a place of inode i's tree; 0 for none. */
  function ZoneAt(s: State, i: nat, p: Path): Zone
    requires IsFile(s, i) && ValidPath(p)
  {
    var r := s.roots[i];
    match p
    case Direct(k) => r[k]
    case Ind => r[7]
    case IndLeaf(a) => if r[7] == 0 then 0 else Ptr(s.disk[r[7]], a)
    case Dind => r[8]
    case DindMid(a) => if r[8] == 0 then 0 else Ptr(s.disk[r[8]], a)
    case DindLeaf(a, b) =>
      var m := if r[8] == 0 then 0 else Ptr(s.disk[r[8]], a);
      if m == 0 then 0 else Ptr(s.disk[m], b)
  }

  /** Where block number n of a file is recorded. */
  function Leaf(n: nat): (p: Path)
    requires n < MAX_BLOCKS
    ensures ValidPath(p)
  {
    if n < 7 then Direct(n)
    else if n < 7 + 512 then IndLeaf(n - 7)
    else DindLeaf((n - 519) / 512, (n - 519) % 512)
  }

  predicate IsLeaf(p: Path) {
    p.Direct? || p.IndLeaf? || p.DindLeaf?
  }

  predicate DataZone(s: State, z: Zone) {
    s.first <= z < s.nzones
  }

  /** The bitmap covers the data zones; bit 0 is never free. */
  predicate ShapeOk(s: State) {
    && 1 <= s.first <= s.nzones < 0x1_0000
    && s.nzones - s.first + 1 <= |s.zmap| && |s.zmap| > 0 && s.zmap[0]
    && |s.files| == |s.roots| == |s.sizes|
  }

  predicate Bit(s: State, z: Zone)
    requires ShapeOk(s) && DataZone(s, z)
  {
    s.zmap[z - s.first + 1]
  }

  /** Every zone in a tree is an allocated data zone. */
  ghost predicate Used(s: State, i: nat, p: Path)
    requires ShapeOk(s) && IsFile(s, i) && ValidPath(p)
  {
    ZoneAt(s, i, p) != 0 ==> DataZone(s, ZoneAt(s, i, p)) && Bit(s, ZoneAt(s, i, p))
  }

  /** The zone is in a tree. */
  ghost predicate Reachable(s: State, z: Zone) {
    exists i: nat, p: Path :: IsFile(s, i) && ValidPath(p) && ZoneAt(s, i, p) == z
  }

  /** Two places never hold the same zone. */
  ghost predicate Apart(s: State, i: nat, p: Path, j: nat, q: Path)
    requires IsFile(s, i) && ValidPath(p) && IsFile(s, j) && ValidPath(q)
  {
    ZoneAt(s, i, p) == ZoneAt(s, j, q) && ZoneAt(s, i, p) != 0 ==> i == j && p == q
  }

  ghost predicate NoSharing(s: State) {
    forall i: nat, p: Path, j: nat, q: Path {:trigger Apart(s, i, p, j, q)} |
      IsFile(s, i) && ValidPath(p) && IsFile(s, j) && ValidPath(q) :: Apart(s, i, p, j, q)
  }

  /** The trees consist of allocated data zones, no two places of the same one. */
  ghost predicate Tidy(s: State) {
    && ShapeOk(s)
    && (forall i: nat, p: Path {:trigger Used(s, i, p)} | IsFile(s, i) && ValidPath(p) :: Used(s, i, p))
    && NoSharing(s)
  }

  /** An allocated zone in no tree. */
  ghost predicate Stray(s: State, z: Zone)
    requires ShapeOk(s)
  {
    DataZone(s, z) && Bit(s, z) && !Reachable(s, z)
  }

  /** The allocated data zones are the disjoint union of the trees. */
  ghost predicate Conserved(s: State) {
    Tidy(s) && !s.panicked && forall z: Zone {:trigger Stray(s, z)} :: !Stray(s, z)
  }

  ghost predicate SameStray(s: State, t: State)
    requires ShapeOk(s) && ShapeOk(t)
  {
    forall z: Zone {:trigger Stray(t, z)} {:trigger Stray(s, z)} :: Stray(t, z) <==> Stray(s, z)
  }

  /** Byte `pos` of file i: a hole reads as zero. */
  function ByteAt(s: State, i: nat, pos: nat): Byte
    requires IsFile(s, i)
  {
    if pos / 1024 >= MAX_BLOCKS then 0 else
    var z := ZoneAt(s, i, Leaf(pos / 1024));
    if z == 0 then 0 else s.disk[z][pos % 1024]
  }

  /** Bytes past the end of a file are zero. */
  ghost predicate ZeroTail(s: State) {
    forall i: nat, pos: nat | IsFile(s, i) && pos >= s.sizes[i] :: ByteAt(s, i, pos) == 0
  }

  /** Two locations with the same nonzero zone are the same location. */
  lemma SameZone(s: State, i: nat, p: Path, j: nat, q: Path)
    requires NoSharing(s) && IsFile(s, i) && ValidPath(p) && IsFile(s, j) && ValidPath(q)
    requires ZoneAt(s, i, p) == ZoneAt(s, j, q) && ZoneAt(s, i, p) != 0
    ensures i == j && p == q
  {
    assert Apart(s, i, p, j, q);
  }

  // ---- bitmap.c ---------------------------------------------------------------

  /** find_first_zero over the bitmap from bit j on. */
  function FirstZero(m: seq<bool>, j: nat): (r: nat)
    requires j <= |m|
    ensures j <= r <= |m|
    ensures r < |m| ==> !m[r]
    ensures forall k | j <= k < r :: m[k]
    decreases |m| - j
  {
    if j == |m| || !m[j] then j else FirstZero(m, j + 1)
  }

  /** find_first_zero and set_bit of new_block: the zone of the first free bit, or 0. A free
      bit past the last zone is set before its number is found to be too large. */
  function TakeBit(s: State): (r: (State, Zone))
    requires ShapeOk(s)
    ensures ShapeOk(r.0) && r.0 == s.(zmap := r.0.zmap)
  {
    var j := FirstZero(s.zmap, 0);
    if j == |s.zmap| then (s, 0)
    else (s.(zmap := s.zmap[j := true]), if j + s.first - 1 >= s.nzones then 0 else j + s.first - 1)
  }

  /** new_block: the first free zone, zeroed, or 0. A zone whose buffer somebody has counted
      is a panic. */
  function NewBlock(s: State): (r: (State, Zone))
    requires ShapeOk(s)
    ensures ShapeOk(r.0) && r.0.files == s.files && r.0.roots == s.roots && r.0.sizes == s.sizes && r.0.held == s.held
  {
    var (t, z) := TakeBit(s);
    if z == 0 then (t, 0)
    else if s.held[z] > 0 then (Panic(t), 0)
    else (t.(disk := t.disk[z := ZeroBlock()]), z)
  }

  function Panic(s: State): State {
    s.(panicked := true)
  }

  /** Freeing touches the bitmap and buffer counts and nothing else: the bytes of a freed
      block stay. */
  ghost predicate BitmapOnly(s: State, t: State) {
    && t == s.(zmap := t.zmap, panicked := t.panicked, held := t.held)
    && |t.zmap| == |s.zmap| && (|s.zmap| > 0 ==> t.zmap[0] == s.zmap[0])
  }

  /** free_block, where `seen` are the zones whose buffer it finds counted by somebody else
      when its turn comes. Such a block is not freed, and is counted once more for good:
      free_block returns without giving its own count back. */
  function FreeBlock(s: State, z: Zone, seen: set<Zone>): (t: State)
    ensures BitmapOnly(s, t)
  {
    if !ShapeOk(s) || !DataZone(s, z) then Panic(s)
    else if z in seen then s.(held := s.held[z := s.held[z] + 1])
    else if !Bit(s, z) then Panic(s)
    else s.(zmap := s.zmap[z - s.first + 1 := false])
  }

  // ---- inode.c ----------------------------------------------------------------

  /** Writes a zone number into its place: an inode field or an indirect block. */
  function SetAt(s: State, i: nat, p: Path, z: Zone): State
    requires IsFile(s, i) && ValidPath(p)
  {
    match p
    case Direct(k) => s.(roots := s.roots[i := s.roots[i][k := z]])
    case Ind => s.(roots := s.roots[i := s.roots[i][7 := z]])
    case Dind => s.(roots := s.roots[i := s.roots[i][8 := z]])
    case IndLeaf(a) => SetIndirect(s, ZoneAt(s, i, Ind), a, z)
    case DindMid(a) => SetIndirect(s, ZoneAt(s, i, Dind), a, z)
    case DindLeaf(a, b) => SetIndirect(s, ZoneAt(s, i, DindMid(a)), b, z)
  }

  function SetIndirect(s: State, block: Zone, k: nat, z: Zone): State
    requires k < POINTERS
  {
    s.(disk := s.disk[block := SetPtr(s.disk[block], k, z)])
  }

  /** `if (create && !place) place = new_block()`, and the place's value after it. */
  function Fill(s: State, i: nat, p: Path): (r: (State, Zone))
    requires ShapeOk(s) && IsFile(s, i) && ValidPath(p)
    ensures ShapeOk(r.0) && IsFile(r.0, i)
  {
    if ZoneAt(s, i, p) != 0 then (s, ZoneAt(s, i, p)) else
    var (t, z) := NewBlock(s);
    if z == 0 then (t, 0) else (SetAt(t, i, p, z), z)
  }

  /** The places on the way down to block n. */
  function WayTo(n: nat): (w: seq<Path>)
    requires n < MAX_BLOCKS
    ensures w != [] && w[|w| - 1] == Leaf(n) && forall p | p in w :: ValidPath(p)
  {
    if n < 7 then [Direct(n)]
    else if n < 519 then [Ind, IndLeaf(n - 7)]
    else [Dind, DindMid((n - 519) / 512), DindLeaf((n - 519) / 512, (n - 519) % 512)]
  }

  /** Fill the places of a way one after the other, stopping where no zone is left. */
  function FillWay(s: State, i: nat, way: seq<Path>): (r: (State, Zone))
    requires ShapeOk(s) && IsFile(s, i) && way != [] && forall p | p in way :: ValidPath(p)
    ensures ShapeOk(r.0) && IsFile(r.0, i)
    decreases |way|
  {
    var (t, z) := Fill(s, i, way[0]);
    if |way| == 1 || z == 0 then (t, z) else FillWay(t, i, way[1..])
  }

  function CreateBlock(s: State, i: nat, n: nat): (r: (State, Zone))
    requires ShapeOk(s) && IsFile(s, i)
    ensures ShapeOk(r.0) && IsFile(r.0, i)
  {
    if n >= MAX_BLOCKS then (Panic(s), 0) else FillWay(s, i, WayTo(n))
  }
}
