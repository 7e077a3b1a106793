/** What goes wrong in the file layer when two processes meet, on small file systems, and
    exactly when a late write does. */
module FileRaces {
  import opened Zones
  import opened ZoneTree
  import opened FileData
  import opened Truncation
  import opened FileRun

  // ---- when a late write does harm --------------------------------------------------------------

  /** Nothing but the bytes meant is written: no zone moves in any tree and every byte outside
      [pos, pos + |data|) of file i is as it was. */
  ghost predicate Harmless(s: State, i: nat, z: Zone, pos: nat, data: seq<Byte>)
    requires IsFile(s, i) && pos % 1024 + |data| <= 1024
  {
    var t := WriteChunk(s, i, z, pos, data);
    && (forall j: nat, q: Path | IsFile(s, j) && ValidPath(q) :: ZoneAt(t, j, q) == ZoneAt(s, j, q))
    && forall j: nat, x: nat | IsFile(s, j) && !(j == i && pos <= x < pos + |data|) :: ByteAt(t, j, x) == ByteAt(s, j, x)
  }

  /** Bytes that differ from what is in the zone. */
  function Others(s: State, z: Zone, off: nat, n: nat): (data: seq<Byte>)
    requires off + n <= 1024
    ensures |data| == n
  {
    seq(n, k requires 0 <= k < n => (s.disk[z][off + k] as int + 1) % 256)
  }

  /** The block number of a data place. */
  lemma LeafNumber(q: Path) returns (m: nat)
    requires ValidPath(q) && IsLeaf(q)
    ensures m < MAX_BLOCKS && Leaf(m) == q
  {
    match q
    case Direct(k) => return k;
    case IndLeaf(a) => return 7 + a;
    case DindLeaf(a, b) =>
      m := 519 + 512 * a + b;
      assert (m - 519) / 512 == a && (m - 519) % 512 == b;
  }

  /** Another byte at an offset is another pointer. */
  lemma PointerDiffers(b: Block, c: Block, off: nat)
    requires off < 1024 && c[off] != b[off] && forall k: nat | k < off :: c[k] == b[k]
    ensures Ptr(c, off / 2) != Ptr(b, off / 2)
  {
    assert off == 2 * (off / 2) || off == 2 * (off / 2) + 1;
  }

  lemma OthersDiffer(s: State, i: nat, z: Zone, pos: nat, n: nat)
    requires IsFile(s, i) && n > 0 && pos % 1024 + n <= 1024
    ensures var t := WriteChunk(s, i, z, pos, Others(s, z, pos % 1024, n));
      && t.disk[z][pos % 1024] != s.disk[z][pos % 1024] && (forall k: nat | k < pos % 1024 :: t.disk[z][k] == s.disk[z][k])
      && forall y: Zone | y != z :: t.disk[y] == s.disk[y]
  {
    var off := pos % 1024;
    var d := Others(s, z, off, n);
    assert (s.disk[z][..off] + d + s.disk[z][off + n..])[off] == d[0];
  }

  /** A chunk for a block of another place changes a byte there. */
  lemma HarmsData(s: State, i: nat, z: Zone, pos: nat, n: nat, j: nat, q: Path)
    requires Tidy(s) && IsFile(s, i) && n > 0 && pos % 1024 + n <= 1024 && pos / 1024 < MAX_BLOCKS
    requires z != 0 && !IsIndex(s, z) && ZoneAt(s, i, Leaf(pos / 1024)) != z
    requires IsFile(s, j) && ValidPath(q) && IsLeaf(q) && ZoneAt(s, j, q) == z
    ensures !Harmless(s, i, z, pos, Others(s, z, pos % 1024, n))
  {
    var data, off := Others(s, z, pos % 1024, n), pos % 1024;
    var t := WriteChunk(s, i, z, pos, data);
    var m := LeafNumber(q);
    var x := 1024 * m + off;
    assert x / 1024 == m && x % 1024 == off;
    LandedBytes(s, i, z, pos, data, j, x);
    assert ByteAt(t, j, x) == data[0] && ByteAt(s, j, x) == s.disk[z][off];
    assert j == i ==> m != pos / 1024;
  }

  /** A chunk for an index block changes a pointer in it. */
  lemma HarmsIndex(s: State, i: nat, z: Zone, pos: nat, n: nat)
    requires Tidy(s) && IsFile(s, i) && n > 0 && pos % 1024 + n <= 1024 && z != 0 && IsIndex(s, z)
    ensures !Harmless(s, i, z, pos, Others(s, z, pos % 1024, n))
  {
    var t := WriteChunk(s, i, z, pos, Others(s, z, pos % 1024, n));
    var off := pos % 1024;
    OthersDiffer(s, i, z, pos, n);
    PointerDiffers(s.disk[z], t.disk[z], off);
    var j: nat, q: Path :| IsFile(s, j) && ValidPath(q) && !IsLeaf(q) && ZoneAt(s, j, q) == z;
    match q
    case Ind => assert ZoneAt(t, j, IndLeaf(off / 2)) != ZoneAt(s, j, IndLeaf(off / 2));
    case Dind => assert ZoneAt(t, j, DindMid(off / 2)) != ZoneAt(s, j, DindMid(off / 2));
    case DindMid(a) =>
      assert Apart(s, j, Dind, j, DindMid(a));
      assert ZoneAt(t, j, DindLeaf(a, off / 2)) != ZoneAt(s, j, DindLeaf(a, off / 2));
  }

  /** A late write is harmless for every content if and only if its zone is still the one of the
      block it was looked up for, or is in no tree. */
  lemma LateHarmlessIff(s: State, i: nat, z: Zone, pos: nat, n: nat)
    requires Tidy(s) && IsFile(s, i) && n > 0 && pos % 1024 + n <= 1024 && pos / 1024 < MAX_BLOCKS && z != 0
    ensures ZoneAt(s, i, Leaf(pos / 1024)) == z || !Reachable(s, z) <==>
      forall data: seq<Byte> {:trigger Harmless(s, i, z, pos, data)} | |data| == n :: Harmless(s, i, z, pos, data)
  {
    var off := pos % 1024;
    if ZoneAt(s, i, Leaf(pos / 1024)) == z || !Reachable(s, z) {
      forall data: seq<Byte> | |data| == n ensures Harmless(s, i, z, pos, data) {
        HarmlessOnTime(s, i, z, pos, data);
      }
    } else if IsIndex(s, z) {
      HarmsIndex(s, i, z, pos, n);
    } else {
      var j: nat, q: Path :| IsFile(s, j) && ValidPath(q) && ZoneAt(s, j, q) == z;
      HarmsData(s, i, z, pos, n, j, q);
    }
  }

  lemma HarmlessOnTime(s: State, i: nat, z: Zone, pos: nat, data: seq<Byte>)
    requires Tidy(s) && IsFile(s, i) && pos % 1024 + |data| <= 1024 && pos / 1024 < MAX_BLOCKS && z != 0
    requires ZoneAt(s, i, Leaf(pos / 1024)) == z || !Reachable(s, z)
    ensures Harmless(s, i, z, pos, data)
  {
    var t := WriteChunk(s, i, z, pos, data);
    NotIndex(s, i, z, Leaf(pos / 1024));
    LandedTrees(s, z, t);
    forall j: nat, x: nat | IsFile(s, j) && !(j == i && pos <= x < pos + |data|) ensures ByteAt(t, j, x) == ByteAt(s, j, x) {
      LandedBytes(s, i, z, pos, data, j, x);
      LandedInPlace(s, i, pos / 1024, z, pos, data, j, x);
    }
  }

  lemma NotIndex(s: State, i: nat, z: Zone, p: Path)
    requires Tidy(s) && IsFile(s, i) && ValidPath(p) && IsLeaf(p) && z != 0
    requires ZoneAt(s, i, p) == z || !Reachable(s, z)
    ensures !IsIndex(s, z)
  {
    forall j: nat, q: Path | IsFile(s, j) && ValidPath(q) && !IsLeaf(q) ensures ZoneAt(s, j, q) != z {
      assert Apart(s, j, q, i, p);
    }
  }

  // ---- on small file systems ---------------------------------------------------------------------

  /** The first free zone of a bitmap of two data zones. */
  lemma TwoZones(s: State)
    requires ShapeOk(s) && s.first == 1 && s.nzones == 3 && |s.zmap| == 3
    ensures TakeBit(s) == if !s.zmap[1] then (s.(zmap := s.zmap[1 := true]), 1) else if !s.zmap[2] then (s.(zmap := s.zmap[2 := true]), 2) else (s, 0)
  {
    assert FirstZero(s.zmap, 3) == 3;
    assert FirstZero(s.zmap, 2) == if !s.zmap[2] then 2 else 3;
    assert FirstZero(s.zmap, 1) == if !s.zmap[1] then 1 else FirstZero(s.zmap, 2);
  }

  /** Some run leads from one to the other. */
  ghost predicate Reached(m: System, t: System)
    requires Inv(m)
  {
    exists steps: seq<Step> :: RunFrom(m, steps) && Run(m, steps) == t
  }

  lemma Start(m: System)
    requires Inv(m)
    ensures Reached(m, m)
  {
    assert RunFrom(m, []) && Run(m, []) == m;
  }

  lemma RunOne(m: System, step: Step)
    requires Inv(m) && Enabled(m, step) && !Apply(m, step).s.panicked && !Astray(m, step)
    ensures RunFrom(m, [step]) && Run(m, [step]) == Apply(m, step)
  {
    StepKeeps(m, step);
    assert [step][1..] == [];
  }

  lemma {:induction false} RunMore(m: System, steps: seq<Step>, step: Step)
    requires Inv(m) && RunFrom(m, steps) && Inv(Run(m, steps))
    requires Enabled(Run(m, steps), step) && !Apply(Run(m, steps), step).s.panicked && !Astray(Run(m, steps), step)
    ensures RunFrom(m, steps + [step]) && Run(m, steps + [step]) == Apply(Run(m, steps), step)
    decreases |steps|
  {
    if steps == [] {
      RunOne(m, step);
      assert steps + [step] == [step];
    } else {
      StepKeeps(m, steps[0]);
      assert (steps + [step])[1..] == steps[1..] + [step];
      RunMore(Apply(m, steps[0]), steps[1..], step);
    }
  }

  lemma OneMoreStep(m: System, t: System, step: Step)
    requires Inv(m) && Inv(t) && Reached(m, t) && Enabled(t, step) && !Apply(t, step).s.panicked && !Astray(t, step)
    ensures Inv(Apply(t, step)) && Reached(m, Apply(t, step))
  {
    var steps: seq<Step> :| RunFrom(m, steps) && Run(m, steps) == t;
    RunMore(m, steps, step);
    StepKeeps(t, step);
  }

  /** Two processes begin to fill block 0 of an empty file: the zone recorded first is lost. */
  lemma TwoBegins() returns (start: System, m: System)
    ensures start == System(EmptyFs(1, 3, 1), map[]) && Inv(start) && Reached(start, m) && Inv(m)
    ensures Enabled(m, Finish(0)) && Clean(m, Finish(0)) && Inv(Apply(m, Finish(0)))
    ensures Enabled(Apply(m, Finish(0)), Finish(1)) && Loses(Apply(m, Finish(0)), Finish(1), 1)
  {
    EmptyFsInv(1, 3, 1);
    start := System(EmptyFs(1, 3, 1), map[]);
    StartInv(start.s);
    Start(start);
    TwoZones(start.s);
    var m1 := Apply(start, Begin(0, 0, Direct(0)));
    OneMoreStep(start, start, Begin(0, 0, Direct(0)));
    TwoZones(m1.s);
    m := Apply(m1, Begin(1, 0, Direct(0)));
    OneMoreStep(start, m1, Begin(1, 0, Direct(0)));
    assert m.acts == map[0 := Filling(0, Direct(0), 0, 1), 1 := Filling(0, Direct(0), 0, 2)];
    TwoForOnePlace(m, 0, 1);
    assert FillOk(m, 1);
  }

  /** A file's only block, in a system of two files. */
  lemma FirstBlock(start: System, m: System, a: nat, i: nat) returns (t: System)
    requires Inv(start) && Inv(m) && Reached(start, m) && ShapeOk(m.s) && m.s.first == 1 && m.s.nzones == 3 && |m.s.zmap| == 3
    requires !m.s.zmap[1] && m.s.held[1] == 0 && Enabled(m, Begin(a, i, Direct(0)))
    ensures Inv(t) && Reached(start, t) && t.acts == m.acts
    ensures t.s == m.s.(zmap := m.s.zmap[1 := true], disk := m.s.disk[1 := ZeroBlock()], roots := m.s.roots[i := m.s.roots[i][0 := 1]])
  {
    TwoZones(m.s);
    var u := Apply(m, Begin(a, i, Direct(0)));
    OneMoreStep(start, m, Begin(a, i, Direct(0)));
    t := Apply(u, Finish(a));
    PanicIff(u, Finish(a));
    OneMoreStep(start, u, Finish(a));
    assert t.acts == m.acts;
  }

  function NoZones(): Roots { [0, 0, 0, 0, 0, 0, 0, 0, 0] }

  /** Two files with these places, zone 1 free or not, and these activities. */
  ghost predicate TwoFiles(m: System, acts: map<nat, Act>, used: bool, first: Roots) {
    && Inv(m) && m.acts == acts && m.s.first == 1 && m.s.nzones == 3 && |m.s.zmap| == 3 && m.s.zmap[1] == used && m.s.held == multiset{}
    && m.s.files == [true, true] && |m.s.roots| == 2 && m.s.roots[0] == first && m.s.roots[1] == NoZones() && |m.s.sizes| == 2
  }

  lemma EmptyTwoFiles() returns (start: System)
    ensures start == System(EmptyFs(1, 3, 2), map[]) && TwoFiles(start, map[], false, NoZones()) && Reached(start, start)
  {
    EmptyFsInv(1, 3, 2);
    start := System(EmptyFs(1, 3, 2), map[]);
    StartInv(start.s);
    Start(start);
    assert start.s.files == [true, true];
  }

  lemma FillAndLook(start: System) returns (m: System)
    requires TwoFiles(start, map[], false, NoZones()) && Reached(start, start)
    ensures TwoFiles(m, map[5 := Looked(0, 0, 1)], true, NoZones()[0 := 1]) && Reached(start, m)
  {
    var m1 := FirstBlock(start, start, 0, 0);
    assert ZoneAt(m1.s, 0, Leaf(0)) == 1;
    m := Apply(m1, Look(5, 0, 0));
    OneMoreStep(start, m1, Look(5, 0, 0));
  }

  lemma CutAway(start: System, m: System) returns (t: System)
    requires Inv(start) && Reached(start, m) && TwoFiles(m, m.acts, true, NoZones()[0 := 1])
    ensures TwoFiles(t, m.acts, false, NoZones()) && Reached(start, t)
  {
    t := Apply(m, Cut(0, {}, {}));
    PanicIff(m, Cut(0, {}, {}));
    OneMoreStep(start, m, Cut(0, {}, {}));
    CutOneBlock(m.s);
  }

  lemma TakenOver(start: System, m: System) returns (t: System)
    requires TwoFiles(m, map[5 := Looked(0, 0, 1)], false, NoZones()) && Inv(start) && Reached(start, m)
    ensures Inv(t) && Reached(start, t) && t.acts == m.acts && IsFile(t.s, 0) && IsFile(t.s, 1)
    ensures ZoneAt(t.s, 1, Leaf(0)) == 1 && ZoneAt(t.s, 0, Leaf(0)) == 0 && t.s.disk[1] == ZeroBlock()
  {
    t := FirstBlock(start, m, 1, 1);
  }

  /** A writer of file 0 finds zone 1 and sleeps; the file is truncated, the zone goes to file
      1, and the chunk lands there. */
  lemma LateLands() returns (start: System, m: System)
    ensures start == System(EmptyFs(1, 3, 2), map[]) && Inv(start) && Reached(start, m) && Inv(m)
    ensures Enabled(m, Late(5, 0, [7])) && m.acts[5] == Looked(0, 0, 1) && !Astray(m, Late(5, 0, [7])) && !OnTime(m, Late(5, 0, [7]))
    ensures var t := Apply(m, Late(5, 0, [7])).s; IsFile(m.s, 1) && IsFile(t, 1) && ByteAt(m.s, 1, 0) == 0 && ByteAt(t, 1, 0) == 7
  {
    start := EmptyTwoFiles();
    var looked := FillAndLook(start);
    var cut := CutAway(start, looked);
    m := TakenOver(start, cut);
    LateIsIn(m);
  }

  lemma LateIsIn(m: System)
    requires Inv(m) && IsFile(m.s, 0) && IsFile(m.s, 1) && m.acts == map[5 := Looked(0, 0, 1)]
    requires ZoneAt(m.s, 1, Leaf(0)) == 1 && ZoneAt(m.s, 0, Leaf(0)) == 0 && m.s.disk[1] == ZeroBlock()
    ensures Enabled(m, Late(5, 0, [7])) && !Astray(m, Late(5, 0, [7])) && !OnTime(m, Late(5, 0, [7]))
    ensures var t := Apply(m, Late(5, 0, [7])).s; IsFile(t, 1) && ByteAt(m.s, 1, 0) == 0 && ByteAt(t, 1, 0) == 7
  {
    assert LookOk(m, 5);
    assert Reachable(m.s, 1);
    NotIndex(m.s, 1, 1, Leaf(0));
    LandedBytes(m.s, 0, 1, 0, [7], 1, 0);
  }

  /** Truncating a file that has zone 1 only. */
  lemma CutOneBlock(s: State)
    requires Tidy(s) && s.first == 1 && s.nzones == 3 && |s.zmap| == 3 && IsFile(s, 0)
    requires s.roots[0] == NoZones()[0 := 1] && s.held == multiset{}
    ensures var t := Truncate(s, 0, {}, {});
      && t.first == 1 && t.nzones == 3 && |t.zmap| == 3 && !t.zmap[1] && t.held == multiset{} && t.files == s.files
      && t.roots == s.roots[0 := NoZones()]
  {
    var t := Truncate(s, 0, {}, {});
    TruncateFrees(s, 0, {}, {});
    TruncateExact(s, 0, {}, {});
    assert ZoneAt(s, 0, Direct(0)) == 1 && Readable(s, 0, Direct(0), {});
    assert GivenBack(s, 0, 1, {}, {});
    assert !Bit(t, 1);
    forall z: Zone ensures t.held[z] == 0 {
      TruncateCounts(s, 0, {}, z, {});
    }
    NothingHeld(t.held);
  }

  lemma NothingHeld(held: multiset<Zone>)
    requires forall z: Zone :: held[z] == 0
    ensures held == multiset{}
  {
  }
}
