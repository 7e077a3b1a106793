/** Every run of the file layer, with any number of processes counting buffers, filling the
    holes of files, writing and truncating at once. new_block sleeps in getblk between taking
    its bit and being recorded: meanwhile its zone is in flight. */
module FileRun {
  import opened Zones
  import opened ZoneTree
  import opened FileData
  import opened Truncation

  /** What a process has under way: a counted buffer, or a zone for place p of file i, taken
      and not recorded yet, or the zone found for block n of file i, whose buffer bread has not
      counted yet. `block` is the index block p is in, counted too; 0 for an inode's own
      places. */
  datatype Act = Reading(z: Zone) | Filling(i: nat, p: Path, block: Zone, z: Zone) | Looked(i: nat, n: nat, z: Zone)

  datatype System = System(s: State, acts: map<nat, Act>)

  datatype Step =
    | Hold(a: nat, z: Zone)                   // bread, of a number that may be out of date
    | Drop(a: nat)                            // brelse
    | Begin(a: nat, i: nat, p: Path)          // an empty place found, a bit taken
    | Finish(a: nat)                          // the zone zeroed and recorded
    | Write(i: nat, pos: nat, data: seq<Byte>) // a chunk into its block
    | Look(a: nat, i: nat, n: nat)            // file_write finds its block
    | Late(a: nat, pos: nat, data: seq<Byte>) // and, after a sleep in bread, writes a chunk of it
    | Cut(i: nat, bad: set<Zone>, seen: set<Zone>) // truncate

  predicate IsRoot(p: Path) { p.Direct? || p.Ind? || p.Dind? }

  function ParentZone(s: State, i: nat, p: Path): Zone
    requires IsFile(s, i) && ValidPath(p)
  {
    if p.DindLeaf? then ZoneAt(s, i, DindMid(p.a)) else if p.DindMid? then ZoneAt(s, i, Dind)
    else if p.IndLeaf? then ZoneAt(s, i, Ind) else 0
  }

  function Entry(p: Path): nat {
    match p
    case DindLeaf(_, b) => b
    case DindMid(a) => a
    case IndLeaf(a) => a
    case _ => 0
  }

  predicate Holds(act: Act, z: Zone) {
    z != 0 && z == if act.Reading? then act.z else if act.Filling? then act.block else 0
  }

  ghost function Holders(acts: map<nat, Act>, z: Zone): set<nat> {
    set a | a in acts && Holds(acts[a], z)
  }

  /** The activity's zone is in flight. */
  predicate Carries(acts: map<nat, Act>, a: nat, z: Zone) {
    a in acts && acts[a].Filling? && acts[a].z == z
  }

  ghost predicate InFlight(acts: map<nat, Act>, z: Zone) {
    exists a: nat :: Carries(acts, a, z)
  }

  /** Allocated, in no tree, and nobody is about to record it. */
  ghost predicate Lost(m: System, z: Zone)
    requires ShapeOk(m.s)
  {
    Stray(m.s, z) && !InFlight(m.acts, z)
  }

  /** The index block the activity will write is the one its place is in. */
  predicate Live(s: State, act: Act)
    requires act.Filling? && IsFile(s, act.i) && ValidPath(act.p)
  {
    IsRoot(act.p) || ParentZone(s, act.i, act.p) == act.block
  }

  /** What is in flight belongs to nobody; the index block is in place, or lost. */
  ghost predicate FillOk(m: System, a: nat)
    requires ShapeOk(m.s)
  {
    a in m.acts && m.acts[a].Filling? ==>
      var act := m.acts[a];
      && IsFile(m.s, act.i) && ValidPath(act.p) && act.z != 0 && Stray(m.s, act.z)
      && (IsRoot(act.p) <==> act.block == 0)
      && (Live(m.s, act) || Lost(m, act.block))
  }

  ghost predicate LookOk(m: System, a: nat) {
    a in m.acts && m.acts[a].Looked? ==> IsFile(m.s, m.acts[a].i) && m.acts[a].n < MAX_BLOCKS && m.acts[a].z != 0
  }

  ghost predicate CountOk(m: System, z: Zone) { |Holders(m.acts, z)| <= m.s.held[z] }

  ghost predicate Inv(m: System) {
    && Tidy(m.s) && !m.s.panicked
    && (forall z: Zone {:trigger CountOk(m, z)} :: CountOk(m, z))
    && (forall a: nat {:trigger FillOk(m, a)} :: FillOk(m, a))
    && (forall a: nat {:trigger LookOk(m, a)} :: LookOk(m, a))
    && forall a: nat, b: nat, z: Zone {:trigger Carries(m.acts, a, z), Carries(m.acts, b, z)} |
         Carries(m.acts, a, z) && Carries(m.acts, b, z) :: a == b
  }

  ghost predicate Enabled(m: System, step: Step) {
    match step
    case Hold(a, z) => a !in m.acts && z != 0
    case Drop(a) => a in m.acts && m.acts[a].Reading?
    case Begin(a, i, p) => a !in m.acts && IsFile(m.s, i) && ValidPath(p) && HasParent(m.s, i, p) && ZoneAt(m.s, i, p) == 0
    case Finish(a) => a in m.acts && m.acts[a].Filling?
    case Write(i, pos, data) =>
      && IsFile(m.s, i) && pos / 1024 < MAX_BLOCKS && data != [] && pos % 1024 + |data| <= 1024
      && ZoneAt(m.s, i, Leaf(pos / 1024)) != 0
    case Look(a, i, n) => a !in m.acts && IsFile(m.s, i) && n < MAX_BLOCKS && ZoneAt(m.s, i, Leaf(n)) != 0
    case Late(a, pos, data) =>
      a in m.acts && m.acts[a].Looked? && pos / 1024 == m.acts[a].n && data != [] && pos % 1024 + |data| <= 1024
    case Cut(i, bad, seen) => IsFile(m.s, i) && SeesHeld(m.s, seen)
  }

  function One(z: Zone): multiset<Zone> { if z == 0 then multiset{} else multiset{z} }

  /** The zone zeroed and its number stored where the activity was going to store it. */
  function Record(s: State, act: Act): State
    requires act.Filling? && IsFile(s, act.i) && ValidPath(act.p) && Entry(act.p) < POINTERS
  {
    var t := s.(disk := s.disk[act.z := ZeroBlock()], held := s.held - One(act.block));
    if IsRoot(act.p) then SetAt(t, act.i, act.p, act.z) else SetIndirect(t, act.block, Entry(act.p), act.z)
  }

  ghost function Apply(m: System, step: Step): System
    requires Inv(m) && Enabled(m, step)
  {
    match step
    case Hold(a, z) => System(m.s.(held := m.s.held + multiset{z}), m.acts[a := Reading(z)])
    case Drop(a) => System(m.s.(held := m.s.held - One(m.acts[a].z)), m.acts - {a})
    case Begin(a, i, p) =>
      var (t, z) := TakeBit(m.s);
      var block := ParentZone(m.s, i, p);
      if z == 0 then m.(s := t)
      else System(t.(held := t.held + One(block)), m.acts[a := Filling(i, p, block, z)])
    case Finish(a) =>
      assert FillOk(m, a);
      if m.s.held[m.acts[a].z] > 0 then m.(s := Panic(m.s)) else System(Record(m.s, m.acts[a]), m.acts - {a})
    case Write(i, pos, data) => m.(s := WriteChunk(m.s, i, ZoneAt(m.s, i, Leaf(pos / 1024)), pos, data))
    case Look(a, i, n) => m.(acts := m.acts[a := Looked(i, n, ZoneAt(m.s, i, Leaf(n)))])
    case Late(a, pos, data) =>
      assert LookOk(m, a);
      System(WriteChunk(m.s, m.acts[a].i, m.acts[a].z, pos, data), m.acts - {a})
    case Cut(i, bad, seen) => m.(s := Truncation.Truncate(m.s, i, bad, seen))
  }

  // ---- what a step loses ----------------------------------------------------------------

  /** z is at place p of file i, or reached through it. */
  ghost predicate AtOrBelow(s: State, i: nat, p: Path, z: Zone)
    requires IsFile(s, i)
  {
    z != 0 && exists q: Path {:trigger ZoneAt(s, i, q)} :: ValidPath(q) && (q == p || Below(p, q)) && ZoneAt(s, i, q) == z
  }

  ghost predicate Loses(m: System, step: Step, z: Zone)
    requires Inv(m) && Enabled(m, step)
  {
    match step
    case Finish(a) =>
      assert FillOk(m, a);
      var act := m.acts[a];
      if Live(m.s, act) then AtOrBelow(m.s, act.i, act.p, z) else z == act.z
    case Cut(i, bad, seen) => InTree(m.s, i, z) && !GivenBack(m.s, i, z, bad, seen)
    case _ => false
  }

  /** A place is still empty, and where it was, when its zone is recorded; a file is cut, and no
      buffer of it found counted, and what it records can be read. */
  ghost predicate Clean(m: System, step: Step)
    requires Inv(m) && Enabled(m, step)
  {
    match step
    case Finish(a) =>
      assert FillOk(m, a);
      Live(m.s, m.acts[a]) && ZoneAt(m.s, m.acts[a].i, m.acts[a].p) == 0
    case Cut(i, bad, seen) =>
      forall p: Path | ValidPath(p) && ZoneAt(m.s, i, p) != 0 :: ZoneAt(m.s, i, p) !in seen && Readable(m.s, i, p, bad)
    case _ => true
  }

  lemma BelowEmpty(s: State, i: nat, p: Path, q: Path)
    requires IsFile(s, i) && ValidPath(p) && ValidPath(q) && Below(p, q) && ZoneAt(s, i, p) == 0
    ensures ZoneAt(s, i, q) == 0
  {
  }

  /** A step loses nothing if and only if it is clean, and what it loses was not lost before. */
  lemma CleanIff(m: System, step: Step)
    requires Inv(m) && Enabled(m, step)
    ensures Clean(m, step) <==> forall z: Zone {:trigger Loses(m, step, z)} :: !Loses(m, step, z)
    ensures forall z: Zone | Loses(m, step, z) :: !Lost(m, z)
  {
    match step
    case Finish(a) =>
      assert FillOk(m, a);
      var act := m.acts[a];
      var y := ZoneAt(m.s, act.i, act.p);
      if Live(m.s, act) {
        if y != 0 {
          assert Loses(m, step, y);
        } else {
          forall q: Path | ValidPath(q) && Below(act.p, q) ensures ZoneAt(m.s, act.i, q) == 0 {
            BelowEmpty(m.s, act.i, act.p, q);
          }
        }
      } else {
        assert Loses(m, step, act.z);
        assert Carries(m.acts, a, act.z);
      }
    case Cut(i, bad, seen) => CutCleanIff(m, i, bad, seen);
    case _ =>
  }

  lemma CutCleanIff(m: System, i: nat, bad: set<Zone>, seen: set<Zone>)
    requires Inv(m) && IsFile(m.s, i) && SeesHeld(m.s, seen)
    ensures Clean(m, Cut(i, bad, seen)) <==> forall z: Zone {:trigger Loses(m, Cut(i, bad, seen), z)} :: !Loses(m, Cut(i, bad, seen), z)
    ensures forall z: Zone | Loses(m, Cut(i, bad, seen), z) :: !Lost(m, z)
  {
    var s := m.s;
    if forall z: Zone :: !Loses(m, Cut(i, bad, seen), z) {
      forall p: Path | ValidPath(p) && ZoneAt(s, i, p) != 0 ensures ZoneAt(s, i, p) !in seen && Readable(s, i, p, bad) {
        var z := ZoneAt(s, i, p);
        assert !Loses(m, Cut(i, bad, seen), z);
        var q: Path :| ValidPath(q) && ZoneAt(s, i, q) == z && Readable(s, i, q, bad);
        SameZone(s, i, p, i, q);
      }
    }
  }

  // ---- counts ---------------------------------------------------------------------------

  lemma HoldersAdd(acts: map<nat, Act>, a: nat, act: Act, z: Zone)
    requires a !in acts
    ensures |Holders(acts[a := act], z)| == |Holders(acts, z)| + if Holds(act, z) then 1 else 0
  {
    assert Holders(acts[a := act], z) == Holders(acts, z) + if Holds(act, z) then {a} else {};
  }

  lemma HoldersDrop(acts: map<nat, Act>, a: nat, z: Zone)
    requires a in acts
    ensures |Holders(acts - {a}, z)| == |Holders(acts, z)| - if Holds(acts[a], z) then 1 else 0
  {
    assert Holders(acts - {a}, z) == Holders(acts, z) - {a};
  }

  lemma Counted(m: System, a: nat, z: Zone)
    requires Inv(m) && a in m.acts && Holds(m.acts[a], z)
    ensures m.s.held[z] > 0
  {
    assert CountOk(m, z);
    assert a in Holders(m.acts, z);
    assert |Holders(m.acts, z)| > 0;
  }

  // ---- the steps, one by one --------------------------------------------------------------

  /** Only buffer counts differ. */
  ghost predicate OnlyCounts(s: State, t: State) {
    t == s.(held := t.held)
  }

  lemma CountsKeepTrees(s: State, t: State)
    requires Tidy(s) && OnlyCounts(s, t)
    ensures Tidy(t) && SameStray(s, t) && (ZeroTail(s) ==> ZeroTail(t))
    ensures forall j: nat, x: nat | IsFile(s, j) :: ByteAt(t, j, x) == ByteAt(s, j, x)
    ensures forall j: nat, q: Path | IsFile(s, j) && ValidPath(q) :: ZoneAt(t, j, q) == ZoneAt(s, j, q)
  {
    SameTreesTidy(s, t);
    forall j: nat, x: nat | IsFile(s, j) ensures ByteAt(t, j, x) == ByteAt(s, j, x) {
    }
    if ZeroTail(s) {
      forall j: nat, x: nat | IsFile(t, j) && x >= t.sizes[j] ensures ByteAt(t, j, x) == 0 {
        assert ByteAt(t, j, x) == ByteAt(s, j, x);
      }
    }
  }

  lemma LooksKept(m: System, t: System)
    requires Inv(m) && t.s.files == m.s.files && |t.s.roots| == |m.s.roots| && |t.s.sizes| == |m.s.sizes|
    requires forall a: nat | a in t.acts && t.acts[a].Looked? :: a in m.acts && m.acts[a] == t.acts[a]
    ensures forall a: nat {:trigger LookOk(t, a)} :: LookOk(t, a)
  {
    forall a: nat ensures LookOk(t, a) {
      assert LookOk(m, a);
    }
  }

  lemma HoldKeeps(m: System, a: nat, z: Zone)
    requires Inv(m) && Enabled(m, Hold(a, z))
    ensures var t := Apply(m, Hold(a, z)); Inv(t) && forall y: Zone :: Lost(t, y) <==> Lost(m, y)
  {
    var t := Apply(m, Hold(a, z));
    LooksKept(m, t);
    CountsKeepTrees(m.s, t.s);
    forall b: nat, y: Zone ensures Carries(t.acts, b, y) <==> Carries(m.acts, b, y) {
    }
    SameCarries(m, t);
    forall y: Zone ensures CountOk(t, y) {
      assert CountOk(m, y);
      HoldersAdd(m.acts, a, Reading(z), y);
    }
    forall b: nat ensures FillOk(t, b) {
      assert FillOk(m, b);
    }
  }

  lemma SameCarries(m: System, t: System)
    requires forall b: nat, y: Zone :: Carries(t.acts, b, y) <==> Carries(m.acts, b, y)
    ensures forall y: Zone :: InFlight(t.acts, y) <==> InFlight(m.acts, y)
  {
  }

  lemma DropKeeps(m: System, a: nat)
    requires Inv(m) && Enabled(m, Drop(a))
    ensures var t := Apply(m, Drop(a)); Inv(t) && forall y: Zone :: Lost(t, y) <==> Lost(m, y)
  {
    var t := Apply(m, Drop(a));
    LooksKept(m, t);
    CountsKeepTrees(m.s, t.s);
    forall b: nat, y: Zone ensures Carries(t.acts, b, y) <==> Carries(m.acts, b, y) {
    }
    SameCarries(m, t);
    forall y: Zone ensures CountOk(t, y) {
      assert CountOk(m, y);
      HoldersDrop(m.acts, a, y);
    }
    forall b: nat ensures FillOk(t, b) {
      assert FillOk(m, b);
    }
  }

  // ---- begin ------------------------------------------------------------------------------

  /** Taking a bit makes its zone stray, and no other. */
  lemma TakeKeeps(s: State, held: multiset<Zone>)
    requires Tidy(s) && !s.panicked
    ensures var (t, z) := TakeBit(s);
      var u := t.(held := held);
      && Tidy(u) && (z != 0 ==> !Stray(s, z) && DataZone(s, z) && !Bit(s, z))
      && (forall y: Zone {:trigger Stray(u, y)} {:trigger Stray(s, y)} :: Stray(u, y) <==> Stray(s, y) || (z != 0 && y == z))
      && (forall j: nat, x: nat | IsFile(s, j) :: ByteAt(u, j, x) == ByteAt(s, j, x))
      && (forall j: nat, q: Path | IsFile(s, j) && ValidPath(q) :: ZoneAt(u, j, q) == ZoneAt(s, j, q))
  {
    var (t, z) := TakeBit(s);
    var u := t.(held := held);
    SameTreesTidy(s, u);
    if z != 0 {
      TakeBitFresh(s);
    }
    forall y: Zone ensures Stray(u, y) <==> Stray(s, y) || (z != 0 && y == z) {
    }
    forall j: nat, x: nat | IsFile(s, j) ensures ByteAt(u, j, x) == ByteAt(s, j, x) {
    }
  }

  lemma SameBytesZeroTail(s: State, t: State)
    requires t.files == s.files && |t.roots| == |s.roots| && t.sizes == s.sizes
    requires forall j: nat, x: nat | IsFile(s, j) :: ByteAt(t, j, x) == ByteAt(s, j, x)
    ensures ZeroTail(s) ==> ZeroTail(t)
  {
    if ZeroTail(s) {
      forall j: nat, x: nat | IsFile(t, j) && x >= t.sizes[j] ensures ByteAt(t, j, x) == 0 {
        assert IsFile(s, j) && ByteAt(t, j, x) == ByteAt(s, j, x);
      }
    }
  }

  /** What is in flight stays in order while trees and strays stay what they are. */
  lemma FillKept(m: System, t: System, b: nat)
    requires Inv(m) && Tidy(t.s) && t.s.files == m.s.files && |t.s.roots| == |m.s.roots| && |t.s.sizes| == |m.s.sizes|
    requires b in m.acts && b in t.acts && m.acts[b] == t.acts[b]
    requires forall j: nat, q: Path | IsFile(m.s, j) && ValidPath(q) :: ZoneAt(t.s, j, q) == ZoneAt(m.s, j, q)
    requires forall y: Zone | Stray(m.s, y) :: Stray(t.s, y)
    requires forall y: Zone :: Lost(m, y) ==> Lost(t, y)
    ensures FillOk(t, b)
  {
    assert FillOk(m, b);
  }

  lemma BeginKeeps(m: System, a: nat, i: nat, p: Path)
    requires Inv(m) && Enabled(m, Begin(a, i, p))
    ensures var t := Apply(m, Begin(a, i, p)); Inv(t) && forall y: Zone :: Lost(t, y) <==> Lost(m, y)
  {
    var t := Apply(m, Begin(a, i, p));
    LooksKept(m, t);
    var z := TakeBit(m.s).1;
    TakeKeeps(m.s, t.s.held);
    SameBytesZeroTail(m.s, t.s);
    if z == 0 {
      forall b: nat ensures FillOk(t, b) {
        assert FillOk(m, b);
      }
      forall y: Zone ensures CountOk(t, y) {
        assert CountOk(m, y);
      }
    } else {
      BeginTakes(m, t, a, i, p, z);
    }
  }

  lemma BeginTakes(m: System, t: System, a: nat, i: nat, p: Path, z: Zone)
    requires Inv(m) && Enabled(m, Begin(a, i, p)) && t == Apply(m, Begin(a, i, p)) && TakeBit(m.s).1 == z != 0
    requires Tidy(t.s)
    ensures Inv(t) && forall y: Zone :: Lost(t, y) <==> Lost(m, y)
  {
    var act := t.acts[a];
    LooksKept(m, t);
    TakeKeeps(m.s, t.s.held);
    forall b: nat, y: Zone ensures Carries(t.acts, b, y) <==> Carries(m.acts, b, y) || (b == a && y == z) {
    }
    forall y: Zone ensures InFlight(t.acts, y) <==> InFlight(m.acts, y) || y == z {
      FlightAdded(m.acts, t.acts, a, z, y);
    }
    forall b: nat, c: nat, y: Zone | Carries(t.acts, b, y) && Carries(t.acts, c, y) ensures b == c {
      assert FillOk(m, b) && FillOk(m, c);
    }
    forall y: Zone ensures CountOk(t, y) {
      assert CountOk(m, y);
      HoldersAdd(m.acts, a, act, y);
    }
    forall b: nat ensures FillOk(t, b) {
      if b != a && b in t.acts {
        FillKept(m, t, b);
      }
    }
  }

  lemma FlightAdded(acts: map<nat, Act>, t: map<nat, Act>, a: nat, z: Zone, y: Zone)
    requires forall b: nat :: Carries(t, b, y) <==> Carries(acts, b, y) || (b == a && y == z)
    ensures InFlight(t, y) <==> InFlight(acts, y) || y == z
  {
    if InFlight(acts, y) {
      var b: nat :| Carries(acts, b, y);
      assert Carries(t, b, y);
    }
    if y == z {
      assert Carries(t, a, y);
    }
  }

  // ---- finish -----------------------------------------------------------------------------

  predicate Over(p: Path, q: Path) { q == p || Below(p, q) }

  /** The activity is ready to record a stray zone. */
  ghost predicate Ready(s: State, act: Act) {
    && Tidy(s) && act.Filling? && IsFile(s, act.i) && ValidPath(act.p) && act.z != 0 && Stray(s, act.z)
    && (IsRoot(act.p) <==> act.block == 0)
  }

  /** Recording in the live place: there the new zone, below it nothing, elsewhere no change. */
  lemma RecordPlaces(s: State, act: Act, j: nat, q: Path)
    requires Ready(s, act) && Live(s, act) && IsFile(s, j) && ValidPath(q)
    ensures var u := Record(s, act);
      ZoneAt(u, j, q) == if j == act.i && q == act.p then act.z else if j == act.i && Below(act.p, q) then 0 else ZoneAt(s, j, q)
    ensures IsLeaf(q) && ZoneAt(s, j, q) != 0 ==> Record(s, act).disk[ZoneAt(s, j, q)] == s.disk[ZoneAt(s, j, q)]
    ensures Record(s, act).disk[act.z] == ZeroBlock()
  {
    var t := Zeroed(s, act);
    SetAtItself(t, act.i, act.p, act.z);
    if j != act.i || q != act.p {
      SetAtOther(t, act.i, act.p, act.z, j, q);
    }
    if IsLeaf(q) && ZoneAt(s, j, q) != 0 {
      SetAtData(t, act.i, act.p, act.z, j, q);
    }
  }

  lemma Zeroed(s: State, act: Act) returns (t: State)
    requires Ready(s, act)
    ensures t == s.(disk := s.disk[act.z := ZeroBlock()], held := s.held - One(act.block))
    ensures NoSharing(t) && FreshZone(t, act.z)
    ensures forall j: nat, q: Path | IsFile(s, j) && ValidPath(q) :: ZoneAt(t, j, q) == ZoneAt(s, j, q) && ZoneAt(s, j, q) != act.z
    ensures Live(s, act) ==> FreshFor(t, act.i, act.p, act.z) && Record(s, act) == SetAt(t, act.i, act.p, act.z)
  {
    t := s.(disk := s.disk[act.z := ZeroBlock()], held := s.held - One(act.block));
    forall j: nat, q: Path | IsFile(s, j) && ValidPath(q) ensures ZoneAt(s, j, q) != act.z {
    }
    forall j: nat, q: Path | IsFile(s, j) && ValidPath(q) ensures ZoneAt(t, j, q) == ZoneAt(s, j, q) {
      StrayWriteKeepsTrees(s, act.z, ZeroBlock(), j, q);
    }
    forall i: nat, p: Path, j: nat, q: Path | IsFile(t, i) && ValidPath(p) && IsFile(t, j) && ValidPath(q) ensures Apart(t, i, p, j, q) {
      assert Apart(s, i, p, j, q);
    }
  }

  lemma RecordTidy(s: State, act: Act)
    requires Ready(s, act) && Live(s, act)
    ensures var u := Record(s, act);
      && u == s.(disk := u.disk, roots := u.roots, held := s.held - One(act.block)) && |u.roots| == |s.roots|
      && Tidy(u) && forall y: Zone {:trigger Stray(u, y)} ::
        Stray(u, y) <==> (Stray(s, y) && y != act.z) || AtOrBelow(s, act.i, act.p, y)
  {
    var u := Record(s, act);
    forall j: nat, q: Path | IsFile(s, j) && ValidPath(q)
      ensures ZoneAt(u, j, q) == if j == act.i && q == act.p then act.z else if j == act.i && Below(act.p, q) then 0 else ZoneAt(s, j, q)
    {
      RecordPlaces(s, act, j, q);
    }
    RecordedTidy(s, u, act);
    forall y: Zone ensures Stray(u, y) <==> (Stray(s, y) && y != act.z) || AtOrBelow(s, act.i, act.p, y) {
      RecordStray(s, u, act, y);
    }
  }

  lemma RecordedTidy(s: State, u: State, act: Act)
    requires Ready(s, act) && u == s.(disk := u.disk, roots := u.roots, held := u.held) && |u.roots| == |s.roots|
    requires forall j: nat, q: Path | IsFile(s, j) && ValidPath(q) ::
      ZoneAt(u, j, q) == if j == act.i && q == act.p then act.z else if j == act.i && Below(act.p, q) then 0 else ZoneAt(s, j, q)
    ensures Tidy(u)
  {
    forall j: nat, q: Path | IsFile(u, j) && ValidPath(q) ensures Used(u, j, q) {
      assert Used(s, j, q);
    }
    forall i: nat, p: Path, j: nat, q: Path | IsFile(u, i) && ValidPath(p) && IsFile(u, j) && ValidPath(q) ensures Apart(u, i, p, j, q) {
      assert Apart(s, i, p, j, q);
    }
  }

  lemma RecordStray(s: State, u: State, act: Act, y: Zone)
    requires Ready(s, act) && ShapeOk(u) && u == s.(disk := u.disk, roots := u.roots, held := u.held)
    requires forall j: nat, q: Path | IsFile(s, j) && ValidPath(q) ::
      ZoneAt(u, j, q) == if j == act.i && q == act.p then act.z else if j == act.i && Below(act.p, q) then 0 else ZoneAt(s, j, q)
    ensures Stray(u, y) <==> (Stray(s, y) && y != act.z) || AtOrBelow(s, act.i, act.p, y)
  {
    if y == act.z {
      assert ZoneAt(u, act.i, act.p) == y;
    } else if AtOrBelow(s, act.i, act.p, y) {
      var q: Path :| ValidPath(q) && Over(act.p, q) && ZoneAt(s, act.i, q) == y;
      assert Used(s, act.i, q);
      forall j: nat, r: Path | IsFile(u, j) && ValidPath(r) ensures ZoneAt(u, j, r) != y {
        if ZoneAt(s, j, r) == y {
          SameZone(s, act.i, q, j, r);
          assert Over(act.p, q);
          assert ZoneAt(u, j, r) == if r == act.p then act.z else 0;
        }
        assert IsFile(s, j);
      }
    } else if y != 0 {
      if Reachable(u, y) {
        var j: nat, r: Path :| IsFile(u, j) && ValidPath(r) && ZoneAt(u, j, r) == y;
        assert ZoneAt(s, j, r) == y;
      }
      if Reachable(s, y) {
        var j: nat, r: Path :| IsFile(s, j) && ValidPath(r) && ZoneAt(s, j, r) == y;
        assert ZoneAt(u, j, r) == y;
      }
    }
  }

  /** What was there reads as zeroes now; every other byte is as before. */
  lemma RecordBytes(s: State, act: Act, j: nat, x: nat)
    requires Ready(s, act) && Live(s, act) && IsFile(s, j)
    ensures var u := Record(s, act);
      ByteAt(u, j, x) == if j == act.i && x / 1024 < MAX_BLOCKS && Over(act.p, Leaf(x / 1024)) then 0 else ByteAt(s, j, x)
    ensures ZoneAt(s, act.i, act.p) == 0 ==> ByteAt(Record(s, act), j, x) == ByteAt(s, j, x)
  {
    if x / 1024 < MAX_BLOCKS {
      var q := Leaf(x / 1024);
      RecordPlaces(s, act, j, q);
      if j == act.i && Below(act.p, q) && ZoneAt(s, act.i, act.p) == 0 {
        BelowEmpty(s, act.i, act.p, q);
      }
    }
  }

  /** Recording in a block that no tree has any more changes no tree and no byte. */
  lemma RecordDead(s: State, act: Act)
    requires Ready(s, act) && !Live(s, act) && Stray(s, act.block)
    ensures var u := Record(s, act);
      && u == s.(disk := u.disk, held := s.held - One(act.block)) && Tidy(u) && SameStray(s, u)
      && (forall j: nat, x: nat | IsFile(s, j) :: ByteAt(u, j, x) == ByteAt(s, j, x))
      && (forall j: nat, q: Path | IsFile(s, j) && ValidPath(q) :: ZoneAt(u, j, q) == ZoneAt(s, j, q))
  {
    var t := Zeroed(s, act);
    var u := Record(s, act);
    forall j: nat, q: Path | IsFile(s, j) && ValidPath(q) ensures ZoneAt(u, j, q) == ZoneAt(s, j, q) && ZoneAt(s, j, q) != act.block {
      assert forall k: nat, r: Path | IsFile(s, k) && ValidPath(r) :: ZoneAt(t, k, r) != act.block;
      StrayWriteKeepsTrees(t, act.block, u.disk[act.block], j, q);
    }
    SameTreesTidy(s, u);
    forall j: nat, x: nat | IsFile(s, j) ensures ByteAt(u, j, x) == ByteAt(s, j, x) {
      if x / 1024 < MAX_BLOCKS {
        assert ZoneAt(s, j, Leaf(x / 1024)) != act.z && ZoneAt(s, j, Leaf(x / 1024)) != act.block;
      }
    }
  }

  lemma FinishFlight(m: System, a: nat, y: Zone)
    requires Inv(m) && Enabled(m, Finish(a))
    ensures InFlight(m.acts - {a}, y) <==> InFlight(m.acts, y) && y != m.acts[a].z
    ensures InFlight(m.acts, y) ==> Stray(m.s, y)
  {
    var t, z := m.acts - {a}, m.acts[a].z;
    assert Carries(m.acts, a, z);
    if InFlight(m.acts, y) {
      var b: nat :| Carries(m.acts, b, y);
      assert FillOk(m, b);
      assert y != z ==> Carries(t, b, y);
    }
    if InFlight(t, y) {
      var b: nat :| Carries(t, b, y);
      assert Carries(m.acts, b, y);
    }
  }

  lemma FinishReady(m: System, a: nat)
    requires Inv(m) && Enabled(m, Finish(a))
    ensures Ready(m.s, m.acts[a]) && (!Live(m.s, m.acts[a]) ==> Stray(m.s, m.acts[a].block))
  {
    assert FillOk(m, a);
  }

  /** What is lost after a zone was recorded. */
  lemma FinishLost(m: System, a: nat, y: Zone)
    requires Inv(m) && Enabled(m, Finish(a)) && m.s.held[m.acts[a].z] == 0
    ensures var t := Apply(m, Finish(a)); ShapeOk(t.s) && (Lost(t, y) <==> Lost(m, y) || Loses(m, Finish(a), y))
  {
    FinishReady(m, a);
    FinishFlight(m, a, y);
    var act := m.acts[a];
    assert Carries(m.acts, a, act.z);
    if Live(m.s, act) {
      RecordTidy(m.s, act);
      assert Stray(Apply(m, Finish(a)).s, y) <==> (Stray(m.s, y) && y != act.z) || AtOrBelow(m.s, act.i, act.p, y);
      assert AtOrBelow(m.s, act.i, act.p, y) ==> Reachable(m.s, y);
    } else {
      RecordDead(m.s, act);
    }
  }

  lemma FinishFills(m: System, a: nat, b: nat)
    requires Inv(m) && Enabled(m, Finish(a)) && m.s.held[m.acts[a].z] == 0
    ensures var t := Apply(m, Finish(a)); ShapeOk(t.s) && FillOk(t, b)
  {
    var t := Apply(m, Finish(a));
    FinishReady(m, a);
    FinishLost(m, a, 0);
    if b in t.acts && m.acts[b].Filling? {
      assert FillOk(m, b);
      var act, o := m.acts[a], m.acts[b];
      assert o.z != act.z by {
        assert Carries(m.acts, a, act.z) && Carries(m.acts, b, o.z);
      }
      FinishLost(m, a, o.block);
      if Live(m.s, act) {
        RecordTidy(m.s, act);
        assert Stray(t.s, o.z);
        if !IsRoot(o.p) && Live(m.s, o) {
          RecordPlaces(m.s, act, o.i, Parent(o.p));
          if o.i == act.i && Over(act.p, Parent(o.p)) {
            assert ZoneAt(m.s, act.i, Parent(o.p)) == o.block;
          }
        }
      } else {
        RecordDead(m.s, act);
        assert Stray(t.s, o.z);
      }
    }
  }

  lemma FinishTrees(m: System, a: nat)
    requires Inv(m) && Enabled(m, Finish(a)) && m.s.held[m.acts[a].z] == 0
    ensures var t := Apply(m, Finish(a));
      && t.s == m.s.(disk := t.s.disk, roots := t.s.roots, held := m.s.held - One(m.acts[a].block)) && |t.s.roots| == |m.s.roots|
      && Tidy(t.s) && (ZeroTail(m.s) ==> ZeroTail(t.s))
    ensures var t := Apply(m, Finish(a));
      forall j: nat, x: nat | IsFile(m.s, j) && (j != m.acts[a].i || Clean(m, Finish(a))) :: ByteAt(t.s, j, x) == ByteAt(m.s, j, x)
  {
    var t, act := Apply(m, Finish(a)), m.acts[a];
    FinishReady(m, a);
    if Live(m.s, act) {
      RecordTidy(m.s, act);
      forall j: nat, x: nat | IsFile(m.s, j)
        ensures ByteAt(t.s, j, x) == ByteAt(m.s, j, x) || (j == act.i && !Clean(m, Finish(a)) && ByteAt(t.s, j, x) == 0)
      {
        RecordBytes(m.s, act, j, x);
      }
      forall j: nat, x: nat | ZeroTail(m.s) && IsFile(t.s, j) && x >= t.s.sizes[j] ensures ByteAt(t.s, j, x) == 0 {
        assert IsFile(m.s, j);
      }
    } else {
      RecordDead(m.s, act);
      SameBytesZeroTail(m.s, t.s);
    }
  }

  lemma FinishKeeps(m: System, a: nat)
    requires Inv(m) && Enabled(m, Finish(a)) && m.s.held[m.acts[a].z] == 0
    ensures Inv(Apply(m, Finish(a)))
  {
    var t := Apply(m, Finish(a));
    FinishTrees(m, a);
    LooksKept(m, t);
    forall y: Zone ensures CountOk(t, y) {
      assert CountOk(m, y);
      HoldersDrop(m.acts, a, y);
      if Holds(m.acts[a], y) {
        Counted(m, a, y);
      }
    }
    forall b: nat ensures FillOk(t, b) {
      FinishFills(m, a, b);
    }
    forall b: nat, c: nat, y: Zone | Carries(t.acts, b, y) && Carries(t.acts, c, y) ensures b == c {
      assert Carries(m.acts, b, y) && Carries(m.acts, c, y);
    }
  }

  // ---- write and cut ------------------------------------------------------------------------

  lemma WriteKeeps(m: System, i: nat, pos: nat, data: seq<Byte>)
    requires Inv(m) && Enabled(m, Write(i, pos, data))
    ensures var t := Apply(m, Write(i, pos, data));
      && Inv(t) && (forall y: Zone :: Lost(t, y) <==> Lost(m, y)) && t.s.files == m.s.files
      && (ZeroTail(m.s) ==> ZeroTail(t.s))
      && forall j: nat, x: nat | IsFile(m.s, j) ::
        ByteAt(t.s, j, x) == if j == i && pos <= x < pos + |data| then data[x - pos] else ByteAt(m.s, j, x)
  {
    var t := Apply(m, Write(i, pos, data));
    LooksKept(m, t);
    var p := Leaf(pos / 1024);
    var z := ZoneAt(m.s, i, p);
    DataWriteKeepsTrees(m.s, i, p, Splice(m.s.disk[z], pos % 1024, data), Max(m.s.sizes[i], pos + |data|));
    forall j: nat, x: nat | IsFile(m.s, j)
      ensures ByteAt(t.s, j, x) == if j == i && pos <= x < pos + |data| then data[x - pos] else ByteAt(m.s, j, x)
    {
      WriteChunkBytes(m.s, i, pos, data, j, x);
    }
    forall j: nat, x: nat | ZeroTail(m.s) && IsFile(t.s, j) && x >= t.s.sizes[j] ensures ByteAt(t.s, j, x) == 0 {
      assert IsFile(m.s, j) && x >= m.s.sizes[j];
    }
    forall y: Zone ensures CountOk(t, y) {
      assert CountOk(m, y);
    }
    forall b: nat ensures FillOk(t, b) {
      assert FillOk(m, b);
    }
  }

  lemma CutFills(m: System, i: nat, bad: set<Zone>, seen: set<Zone>, b: nat)
    requires Inv(m) && IsFile(m.s, i) && SeesHeld(m.s, seen)
    ensures var t := Apply(m, Cut(i, bad, seen)); Tidy(t.s) && FillOk(t, b)
  {
    var t := Apply(m, Cut(i, bad, seen));
    TruncateExact(m.s, i, bad, seen);
    assert FillOk(m, b);
    if b in m.acts && m.acts[b].Filling? {
      var o := m.acts[b];
      assert Stray(t.s, o.z);
      if !IsRoot(o.p) && Live(m.s, o) && o.i == i {
        assert ZoneAt(m.s, i, Parent(o.p)) == o.block;
        Counted(m, b, o.block);
        assert InTree(m.s, i, o.block) && !GivenBack(m.s, i, o.block, bad, seen);
        assert Stray(t.s, o.block);
        ReachableNotInFlight(m, i, Parent(o.p));
      } else if !IsRoot(o.p) && !Live(m.s, o) {
        assert Stray(t.s, o.block);
      }
    }
  }

  lemma ReachableNotInFlight(m: System, i: nat, p: Path)
    requires Inv(m) && IsFile(m.s, i) && ValidPath(p) && ZoneAt(m.s, i, p) != 0
    ensures !InFlight(m.acts, ZoneAt(m.s, i, p))
  {
    var z := ZoneAt(m.s, i, p);
    forall b: nat ensures !Carries(m.acts, b, z) {
      assert FillOk(m, b);
      assert Reachable(m.s, z);
    }
  }

  lemma CutKeeps(m: System, i: nat, bad: set<Zone>, seen: set<Zone>)
    requires Inv(m) && IsFile(m.s, i) && SeesHeld(m.s, seen)
    ensures var t := Apply(m, Cut(i, bad, seen));
      && Inv(t) && t.s.files == m.s.files && (ZeroTail(m.s) ==> ZeroTail(t.s))
      && (forall y: Zone :: Lost(t, y) <==> Lost(m, y) || Loses(m, Cut(i, bad, seen), y))
      && forall j: nat, x: nat | IsFile(m.s, j) :: ByteAt(t.s, j, x) == if j == i then 0 else ByteAt(m.s, j, x)
  {
    var t := Apply(m, Cut(i, bad, seen));
    TruncateFrees(m.s, i, bad, seen);
    LooksKept(m, t);
    TruncateExact(m.s, i, bad, seen);
    forall j: nat, x: nat | ZeroTail(m.s) && IsFile(t.s, j) && x >= t.s.sizes[j] ensures ByteAt(t.s, j, x) == 0 {
      assert IsFile(m.s, j);
    }
    forall y: Zone ensures CountOk(t, y) {
      assert CountOk(m, y);
      TruncateCounts(m.s, i, bad, y, seen);
    }
    forall b: nat ensures FillOk(t, b) {
      CutFills(m, i, bad, seen, b);
    }
    forall y: Zone ensures Lost(t, y) <==> Lost(m, y) || Loses(m, Cut(i, bad, seen), y) {
      if InTree(m.s, i, y) {
        var p: Path :| ValidPath(p) && ZoneAt(m.s, i, p) == y;
        ReachableNotInFlight(m, i, p);
      }
      assert Stray(t.s, y) <==> Stray(m.s, y) || (InTree(m.s, i, y) && !GivenBack(m.s, i, y, bad, seen));
    }
  }

  // ---- late writes ----------------------------------------------------------------------------

  lemma LookKeeps(m: System, a: nat, i: nat, n: nat)
    requires Inv(m) && Enabled(m, Look(a, i, n))
    ensures var t := Apply(m, Look(a, i, n)); Inv(t) && forall y: Zone :: Lost(t, y) <==> Lost(m, y)
  {
    var t := Apply(m, Look(a, i, n));
    ActsKeep(m, t, a);
    forall b: nat ensures LookOk(t, b) {
      assert LookOk(m, b);
    }
  }

  /** An activity that counts nothing and carries nothing comes or goes. */
  lemma ActsKeep(m: System, t: System, a: nat)
    requires Inv(m) && Tidy(t.s) && SameStray(m.s, t.s) && t.s.files == m.s.files && |t.s.roots| == |m.s.roots| && |t.s.sizes| == |m.s.sizes|
    requires t.s.held == m.s.held && forall j: nat, q: Path | IsFile(m.s, j) && ValidPath(q) :: ZoneAt(t.s, j, q) == ZoneAt(m.s, j, q)
    requires t.acts - {a} == m.acts - {a}
    requires (a in t.acts ==> t.acts[a].Looked?) && (a in m.acts ==> m.acts[a].Looked?)
    ensures forall y: Zone {:trigger CountOk(t, y)} :: CountOk(t, y)
    ensures forall b: nat {:trigger FillOk(t, b)} :: FillOk(t, b)
    ensures forall b: nat, y: Zone {:trigger Carries(t.acts, b, y)} :: Carries(t.acts, b, y) <==> Carries(m.acts, b, y)
    ensures forall y: Zone {:trigger Lost(t, y)} :: Lost(t, y) <==> Lost(m, y)
  {
    forall b: nat | b != a ensures (b in t.acts <==> b in m.acts) && (b in t.acts ==> t.acts[b] == m.acts[b]) {
      assert b in t.acts <==> b in t.acts - {a};
      assert b in m.acts <==> b in m.acts - {a};
      assert b in t.acts ==> t.acts[b] == (t.acts - {a})[b] && m.acts[b] == (m.acts - {a})[b];
    }
    forall b: nat, y: Zone ensures Carries(t.acts, b, y) <==> Carries(m.acts, b, y) {
    }
    SameCarries(m, t);
    forall y: Zone ensures CountOk(t, y) {
      assert CountOk(m, y);
      assert Holders(t.acts, y) == Holders(m.acts, y);
    }
    forall b: nat ensures FillOk(t, b) {
      assert FillOk(m, b);
    }
  }

  /** What a late write does, unless it lands in an index block: the chunk goes where its zone
      is now, into the file that has it, or into none. */
  lemma LateKeeps(m: System, a: nat, pos: nat, data: seq<Byte>)
    requires Inv(m) && Enabled(m, Late(a, pos, data)) && !Astray(m, Late(a, pos, data))
    ensures var t := Apply(m, Late(a, pos, data));
      && Inv(t) && (forall y: Zone :: Lost(t, y) <==> Lost(m, y)) && t.s.files == m.s.files
      && (ZeroTail(m.s) && OnTime(m, Late(a, pos, data)) ==> ZeroTail(t.s))
      && forall j: nat, x: nat | IsFile(m.s, j) :: ByteAt(t.s, j, x) == LandedByte(m.s, m.acts[a].z, pos % 1024, data, j, x)
  {
    var t, act := Apply(m, Late(a, pos, data)), m.acts[a];
    assert LookOk(m, a);
    LandedTrees(m.s, act.z, t.s);
    ActsKeep(m, t, a);
    LooksKept(m, t);
    forall j: nat, x: nat | IsFile(m.s, j) ensures ByteAt(t.s, j, x) == LandedByte(m.s, act.z, pos % 1024, data, j, x) {
      LandedBytes(m.s, act.i, act.z, pos, data, j, x);
    }
    if ZeroTail(m.s) && OnTime(m, Late(a, pos, data)) {
      forall j: nat, x: nat | IsFile(t.s, j) && x >= t.s.sizes[j] ensures ByteAt(t.s, j, x) == 0 {
        assert IsFile(m.s, j) && x >= m.s.sizes[j];
        LandedInPlace(m.s, act.i, act.n, act.z, pos, data, j, x);
      }
    }
  }

  lemma LandedInPlace(s: State, i: nat, n: nat, z: Zone, pos: nat, data: seq<Byte>, j: nat, x: nat)
    requires Tidy(s) && IsFile(s, i) && IsFile(s, j) && z != 0 && n < MAX_BLOCKS && pos / 1024 == n && pos % 1024 + |data| <= 1024
    requires ZoneAt(s, i, Leaf(n)) == z || !Reachable(s, z)
    ensures LandedByte(s, z, pos % 1024, data, j, x) ==
      if ZoneAt(s, i, Leaf(n)) == z && j == i && pos <= x < pos + |data| then data[x - pos] else ByteAt(s, j, x)
  {
    if x / 1024 < MAX_BLOCKS {
      if ZoneAt(s, j, Leaf(x / 1024)) == z {
        assert Reachable(s, z);
        SameZone(s, i, Leaf(n), j, Leaf(x / 1024));
        LeafInjective(n, x / 1024);
      }
    }
  }

  // ---- every step -----------------------------------------------------------------------------

  /** The bytes and size of file j are the same in both. */
  ghost predicate SameFile(s: State, t: State, j: nat)
    requires IsFile(s, j)
  {
    IsFile(t, j) && t.sizes[j] == s.sizes[j] && forall x: nat :: ByteAt(t, j, x) == ByteAt(s, j, x)
  }

  /** The file whose bytes a step may change. */
  ghost predicate Touches(m: System, step: Step, j: nat)
    requires Inv(m) && Enabled(m, step)
  {
    match step
    case Write(i, _, _) => j == i
    case Cut(i, _, _) => j == i
    case Finish(a) => j == m.acts[a].i && !Clean(m, step)
    case Late(a, _, _) => j == m.acts[a].i || (IsFile(m.s, j) && HasLeaf(m.s, j, m.acts[a].z))
    case _ => false
  }

  /** A late write lands in an index block. */
  ghost predicate Astray(m: System, step: Step) {
    step.Late? && step.a in m.acts && m.acts[step.a].Looked? && IsIndex(m.s, m.acts[step.a].z)
  }

  /** A late write finds its zone where it was, or in no tree. */
  ghost predicate OnTime(m: System, step: Step)
    requires Inv(m)
  {
    step.Late? && step.a in m.acts && m.acts[step.a].Looked? ==>
      var act := m.acts[step.a];
      assert LookOk(m, step.a);
      ZoneAt(m.s, act.i, Leaf(act.n)) == act.z || !Reachable(m.s, act.z)
  }

  /** new_block panics if and only if somebody has counted the buffer of the zone it took. */
  lemma PanicIff(m: System, step: Step)
    requires Inv(m) && Enabled(m, step)
    ensures Apply(m, step).s.panicked <==> step.Finish? && m.s.held[m.acts[step.a].z] > 0
  {
    match step
    case Finish(a) => if m.s.held[m.acts[a].z] == 0 { FinishTrees(m, a); }
    case Cut(i, bad, seen) => TruncateExact(m.s, i, bad, seen);
    case _ =>
  }

  /** Every step, but a late write into an index block, keeps trees and zones in flight apart
      and allocated, loses exactly what it is said to lose, and changes no file but those said;
      a late write on time also keeps bytes past the end of a file zero, as all other steps do. */
  lemma StepKeeps(m: System, step: Step)
    requires Inv(m) && Enabled(m, step) && !Apply(m, step).s.panicked && !Astray(m, step)
    ensures var t := Apply(m, step); Inv(t) && t.s.files == m.s.files && (ZeroTail(m.s) && OnTime(m, step) ==> ZeroTail(t.s))
    ensures var t := Apply(m, step); forall z: Zone {:trigger Lost(t, z)} :: Lost(t, z) <==> Lost(m, z) || Loses(m, step, z)
    ensures var t := Apply(m, step);
      forall j: nat {:trigger SameFile(m.s, t.s, j)} | IsFile(m.s, j) && !Touches(m, step, j) :: SameFile(m.s, t.s, j)
  {
    PanicIff(m, step);
    match step
    case Hold(a, z) =>
      HoldKeeps(m, a, z);
      CountsKeepTrees(m.s, Apply(m, step).s);
    case Drop(a) =>
      DropKeeps(m, a);
      CountsKeepTrees(m.s, Apply(m, step).s);
    case Begin(a, i, p) =>
      BeginKeeps(m, a, i, p);
      TakeKeeps(m.s, Apply(m, step).s.held);
      SameBytesZeroTail(m.s, Apply(m, step).s);
    case Finish(a) =>
      FinishKeeps(m, a);
      FinishTrees(m, a);
      forall z: Zone ensures Lost(Apply(m, step), z) <==> Lost(m, z) || Loses(m, step, z) {
        FinishLost(m, a, z);
      }
    case Write(i, pos, data) => WriteKeeps(m, i, pos, data);
    case Look(a, i, n) => LookKeeps(m, a, i, n);
    case Late(a, pos, data) =>
      LateKeeps(m, a, pos, data);
      forall j: nat | IsFile(m.s, j) && !Touches(m, step, j) ensures SameFile(m.s, Apply(m, step).s, j) {
        LateElsewhere(m, a, pos, data, j);
      }
    case Cut(i, bad, seen) => CutKeeps(m, i, bad, seen);
  }

  lemma LateElsewhere(m: System, a: nat, pos: nat, data: seq<Byte>, j: nat)
    requires Inv(m) && Enabled(m, Late(a, pos, data)) && !Astray(m, Late(a, pos, data))
    requires IsFile(m.s, j) && !Touches(m, Late(a, pos, data), j)
    ensures SameFile(m.s, Apply(m, Late(a, pos, data)).s, j)
  {
    assert LookOk(m, a);
    var t := Apply(m, Late(a, pos, data));
    forall x: nat ensures ByteAt(t.s, j, x) == ByteAt(m.s, j, x) {
      LandedBytes(m.s, m.acts[a].i, m.acts[a].z, pos, data, j, x);
    }
  }

  // ---- every run --------------------------------------------------------------------------------

  /** A run up to where it panics or a late write lands in an index block, if that happens. */
  ghost predicate RunFrom(m: System, steps: seq<Step>)
    requires Inv(m)
    decreases |steps|
  {
    steps == [] || (Enabled(m, steps[0]) && !Apply(m, steps[0]).s.panicked && !Astray(m, steps[0]) && (StepKeeps(m, steps[0]); RunFrom(Apply(m, steps[0]), steps[1..])))
  }

  ghost function Run(m: System, steps: seq<Step>): System
    requires Inv(m) && RunFrom(m, steps)
    decreases |steps|
  {
    if steps == [] then m else StepKeeps(m, steps[0]); Run(Apply(m, steps[0]), steps[1..])
  }

  ghost predicate AllClean(m: System, steps: seq<Step>)
    requires Inv(m) && RunFrom(m, steps)
    decreases |steps|
  {
    steps == [] || (Clean(m, steps[0]) && (StepKeeps(m, steps[0]); AllClean(Apply(m, steps[0]), steps[1..])))
  }

  ghost predicate NeverTouches(m: System, steps: seq<Step>, j: nat)
    requires Inv(m) && RunFrom(m, steps)
    decreases |steps|
  {
    steps == [] || (!Touches(m, steps[0], j) && (StepKeeps(m, steps[0]); NeverTouches(Apply(m, steps[0]), steps[1..], j)))
  }

  /** Over every run, whatever is interleaved with whatever: trees and zones in flight stay
      apart and allocated, and a file that no step touches keeps its size and every byte. */
  lemma {:induction false} RunKeeps(m: System, steps: seq<Step>, j: nat)
    requires Inv(m) && RunFrom(m, steps) && IsFile(m.s, j)
    ensures Inv(Run(m, steps)) && Run(m, steps).s.files == m.s.files && IsFile(Run(m, steps).s, j)
    ensures NeverTouches(m, steps, j) ==> SameFile(m.s, Run(m, steps).s, j)
    decreases |steps|
  {
    if steps != [] {
      StepKeeps(m, steps[0]);
      var t := Apply(m, steps[0]);
      RunKeeps(t, steps[1..], j);
      if NeverTouches(m, steps, j) {
        assert SameFile(m.s, t.s, j);
      }
    }
  }

  /** The file a step is for. */
  ghost predicate IsFor(m: System, step: Step, j: nat)
    requires Inv(m) && Enabled(m, step)
  {
    match step
    case Write(i, _, _) => j == i
    case Cut(i, _, _) => j == i
    case Finish(a) => j == m.acts[a].i && !Clean(m, step)
    case Late(a, _, _) => j == m.acts[a].i
    case _ => false
  }

  ghost predicate AllOnTime(m: System, steps: seq<Step>)
    requires Inv(m) && RunFrom(m, steps)
    decreases |steps|
  {
    steps == [] || (OnTime(m, steps[0]) && (StepKeeps(m, steps[0]); AllOnTime(Apply(m, steps[0]), steps[1..])))
  }

  ghost predicate NeverFor(m: System, steps: seq<Step>, j: nat)
    requires Inv(m) && RunFrom(m, steps)
    decreases |steps|
  {
    steps == [] || (!IsFor(m, steps[0], j) && (StepKeeps(m, steps[0]); NeverFor(Apply(m, steps[0]), steps[1..], j)))
  }

  /** While late writes are on time, a file that no step is for keeps its size and every byte,
      and bytes past the end of any file stay zero. */
  lemma {:induction false} OnTimeRunKeeps(m: System, steps: seq<Step>, j: nat)
    requires Inv(m) && RunFrom(m, steps) && AllOnTime(m, steps) && IsFile(m.s, j)
    ensures ZeroTail(m.s) ==> ZeroTail(Run(m, steps).s)
    ensures NeverFor(m, steps, j) ==> SameFile(m.s, Run(m, steps).s, j)
    decreases |steps|
  {
    if steps != [] {
      StepKeeps(m, steps[0]);
      var t := Apply(m, steps[0]);
      OnTimeTouches(m, steps[0], j);
      assert IsFile(t.s, j);
      OnTimeRunKeeps(t, steps[1..], j);
      if NeverFor(m, steps, j) {
        assert SameFile(m.s, t.s, j);
      }
    }
  }

  lemma OnTimeTouches(m: System, step: Step, j: nat)
    requires Inv(m) && Enabled(m, step) && OnTime(m, step)
    ensures Touches(m, step, j) ==> IsFor(m, step, j)
  {
    match step
    case Late(a, _, _) =>
      assert LookOk(m, a);
      var act := m.acts[a];
      if IsFile(m.s, j) && HasLeaf(m.s, j, act.z) {
        var q: Path :| ValidPath(q) && IsLeaf(q) && ZoneAt(m.s, j, q) == act.z;
        assert Reachable(m.s, act.z);
        SameZone(m.s, j, q, act.i, Leaf(act.n));
      }
    case _ =>
  }

  lemma {:induction false} LostGrows(m: System, steps: seq<Step>)
    requires Inv(m) && RunFrom(m, steps)
    ensures Inv(Run(m, steps)) && forall z: Zone {:trigger Lost(Run(m, steps), z)} | Lost(m, z) :: Lost(Run(m, steps), z)
    decreases |steps|
  {
    if steps != [] {
      StepKeeps(m, steps[0]);
      LostGrows(Apply(m, steps[0]), steps[1..]);
    }
  }

  /** A run loses no zone if and only if each of its steps is clean. */
  lemma {:induction false} NothingLostIff(m: System, steps: seq<Step>)
    requires Inv(m) && RunFrom(m, steps)
    ensures Inv(Run(m, steps))
    ensures AllClean(m, steps) <==> forall z: Zone {:trigger Lost(m, z)} {:trigger Lost(Run(m, steps), z)} :: Lost(Run(m, steps), z) <==> Lost(m, z)
    decreases |steps|
  {
    if steps != [] {
      var t := Apply(m, steps[0]);
      StepKeeps(m, steps[0]);
      CleanIff(m, steps[0]);
      NothingLostIff(t, steps[1..]);
      LostGrows(t, steps[1..]);
      if !Clean(m, steps[0]) {
        var z: Zone :| Loses(m, steps[0], z);
        assert Lost(t, z) && !Lost(m, z);
      } else {
        assert forall z: Zone :: Lost(t, z) <==> Lost(m, z);
        if !AllClean(t, steps[1..]) {
          var z: Zone :| Lost(Run(t, steps[1..]), z) != Lost(t, z);
        }
      }
    }
  }

  /** After a clean run from a conserved file system, the zones allocated are the disjoint union
      of the trees and of what is in flight; with nothing in flight, of the trees. */
  lemma CleanRunConserves(m: System, steps: seq<Step>, z: Zone)
    requires Inv(m) && RunFrom(m, steps) && Conserved(m.s) && AllClean(m, steps)
    ensures var r := Run(m, steps).s;
      && ShapeOk(r) && (DataZone(r, z) && Bit(r, z) ==> Reachable(r, z) || InFlight(Run(m, steps).acts, z))
      && !(Reachable(r, z) && InFlight(Run(m, steps).acts, z))
    ensures (forall a: nat | a in Run(m, steps).acts :: !Run(m, steps).acts[a].Filling?) ==> Conserved(Run(m, steps).s)
  {
    var t := Run(m, steps);
    NothingLostIff(m, steps);
    assert !Stray(m.s, z) && !Lost(m, z) && !Lost(t, z);
    if InFlight(t.acts, z) {
      var a: nat :| Carries(t.acts, a, z);
      assert FillOk(t, a);
    }
    if forall a: nat | a in t.acts :: !t.acts[a].Filling? {
      forall y: Zone ensures !Stray(t.s, y) {
        assert !Stray(m.s, y) && !Lost(m, y) && !Lost(t, y);
      }
    }
  }

  // ---- who keeps it clean -------------------------------------------------------------------------

  /** Undisturbed, the two steps are create_block's filling of one place. */
  lemma FillIsTwoSteps(m: System, a: nat, i: nat, p: Path)
    requires Inv(m) && Enabled(m, Begin(a, i, p)) && TakeBit(m.s).1 != 0 && m.s.held[TakeBit(m.s).1] == 0
    ensures Inv(Apply(m, Begin(a, i, p))) && Enabled(Apply(m, Begin(a, i, p)), Finish(a))
    ensures var t := Apply(Apply(m, Begin(a, i, p)), Finish(a)); t.s == Fill(m.s, i, p).0 && t.acts == m.acts
  {
    var u := Apply(m, Begin(a, i, p));
    BeginKeeps(m, a, i, p);
    NoCountTaken(m, i, p);
    assert u.acts - {a} == m.acts;
    FinishReady(u, a);
    RecordIsFill(m.s, u.s, u.acts[a]);
  }

  lemma NoCountTaken(m: System, i: nat, p: Path)
    requires Inv(m) && IsFile(m.s, i) && ValidPath(p) && TakeBit(m.s).1 != 0
    ensures ParentZone(m.s, i, p) != TakeBit(m.s).1
  {
    TakeBitFresh(m.s);
    assert !IsRoot(p) ==> ParentZone(m.s, i, p) == ZoneAt(m.s, i, Parent(p));
  }

  /** Recording what was just taken. */
  lemma RecordIsFill(s: State, u: State, act: Act)
    requires Tidy(s) && Ready(u, act) && act.z == TakeBit(s).1 && s.held[act.z] == 0
    requires IsFile(s, act.i) && ZoneAt(s, act.i, act.p) == 0 && act.block == ParentZone(s, act.i, act.p)
    requires u == TakeBit(s).0.(held := s.held + One(act.block))
    ensures Record(u, act) == Fill(s, act.i, act.p).0
  {
    TakeBitFresh(s);
    assert u.held - One(act.block) == s.held;
    PlacesTaken(s, u, act);
    var t := Zeroed(u, act);
    assert t == NewBlock(s).0;
  }

  lemma PlacesTaken(s: State, u: State, act: Act)
    requires Tidy(s) && u == s.(zmap := u.zmap, held := u.held) && act.Filling? && IsFile(s, act.i) && ValidPath(act.p)
    ensures IsFile(u, act.i) && ParentZone(u, act.i, act.p) == ParentZone(s, act.i, act.p)
  {
  }

  /** Two zones in flight for one place: whichever is recorded second loses the first. */
  lemma TwoForOnePlace(m: System, a: nat, b: nat)
    requires Inv(m) && Enabled(m, Finish(a)) && Enabled(m, Finish(b)) && a != b && Clean(m, Finish(a))
    requires m.acts[a].i == m.acts[b].i && m.acts[a].p == m.acts[b].p && m.s.held[m.acts[a].z] == 0
    ensures var t := Apply(m, Finish(a));
      Inv(t) && Enabled(t, Finish(b)) && !Clean(t, Finish(b)) && (FillOk(m, b) && Live(m.s, m.acts[b]) ==> Loses(t, Finish(b), m.acts[a].z))
  {
    var act, t := m.acts[a], Apply(m, Finish(a));
    FinishKeeps(m, a);
    FinishReady(m, a);
    RecordPlaces(m.s, act, act.i, act.p);
    if !IsRoot(act.p) {
      RecordPlaces(m.s, act, act.i, Parent(act.p));
    }
  }

  /** Activity a is filling place p of file i. */
  predicate Fills(acts: map<nat, Act>, a: nat, i: nat, p: Path) {
    a in acts && acts[a].Filling? && acts[a].i == i && acts[a].p == p
  }

  /** Each place in flight is empty, where it was, and in flight once. */
  ghost predicate Solo(m: System) {
    && (forall a: nat {:trigger Enabled(m, Finish(a))} | Inv(m) && Enabled(m, Finish(a)) :: Clean(m, Finish(a)))
    && forall a: nat, b: nat, i: nat, p: Path {:trigger Fills(m.acts, a, i, p), Fills(m.acts, b, i, p)} |
         Fills(m.acts, a, i, p) && Fills(m.acts, b, i, p) :: a == b
  }

  /** What a lock on each inode would see to: no second allocation for a place in flight, no
      truncation of a file with one, or with buffers found counted or unreadable. */
  ghost predicate Careful(m: System, step: Step)
    requires Inv(m) && Enabled(m, step)
  {
    match step
    case Begin(_, i, p) => forall b: nat :: !Fills(m.acts, b, i, p)
    case Cut(i, _, _) => Clean(m, step) && forall b: nat, p: Path :: !Fills(m.acts, b, i, p)
    case _ => true
  }

  /** Then every step is clean. */
  lemma CarefulIsClean(m: System, step: Step)
    requires Inv(m) && Solo(m) && Enabled(m, step) && Careful(m, step) && !Apply(m, step).s.panicked && !Astray(m, step)
    ensures Clean(m, step) && Inv(Apply(m, step)) && Solo(Apply(m, step))
  {
    var t := Apply(m, step);
    StepKeeps(m, step);
    forall a: nat | Enabled(t, Finish(a)) ensures Clean(t, Finish(a)) {
      StillClean(m, step, a);
    }
    forall a: nat, b: nat, i: nat, p: Path | Fills(t.acts, a, i, p) && Fills(t.acts, b, i, p) ensures a == b {
      assert Fills(m.acts, a, i, p) || (step.Begin? && step.a == a && step.i == i && step.p == p);
      assert Fills(m.acts, b, i, p) || (step.Begin? && step.a == b && step.i == i && step.p == p);
    }
  }

  lemma StillClean(m: System, step: Step, a: nat)
    requires Inv(m) && Solo(m) && Enabled(m, step) && Careful(m, step) && !Apply(m, step).s.panicked && !Astray(m, step) && Inv(Apply(m, step))
    requires Enabled(Apply(m, step), Finish(a))
    ensures Clean(Apply(m, step), Finish(a))
  {
    var t := Apply(m, step);
    var act := t.acts[a];
    PanicIff(m, step);
    assert FillOk(t, a) && FillOk(m, a);
    if a in m.acts {
      assert Enabled(m, Finish(a)) && Clean(m, Finish(a));
      SamePlace(m, step, a, act.p);
      if !IsRoot(act.p) {
        SamePlace(m, step, a, Parent(act.p));
      }
    } else {
      TakeKeeps(m.s, t.s.held);
    }
  }

  /** A careful step moves neither a place in flight nor its index block. */
  lemma SamePlace(m: System, step: Step, a: nat, q: Path)
    requires Inv(m) && Solo(m) && Enabled(m, step) && Careful(m, step) && !Apply(m, step).s.panicked && !Astray(m, step)
    requires a in m.acts && a in Apply(m, step).acts && m.acts[a].Filling? && Enabled(m, Finish(a))
    requires ValidPath(q) && (q == m.acts[a].p || (!IsRoot(m.acts[a].p) && q == Parent(m.acts[a].p)))
    ensures var i := m.acts[a].i;
      IsFile(m.s, i) && IsFile(Apply(m, step).s, i) && ZoneAt(Apply(m, step).s, i, q) == ZoneAt(m.s, i, q)
  {
    var t, i := Apply(m, step), m.acts[a].i;
    PanicIff(m, step);
    assert FillOk(m, a);
    assert Fills(m.acts, a, i, m.acts[a].p);
    match step
    case Hold(_, _) => CountsKeepTrees(m.s, t.s);
    case Drop(_) => CountsKeepTrees(m.s, t.s);
    case Begin(_, _, _) => TakeKeeps(m.s, t.s.held);
    case Finish(b) => FinishElsewhere(m, b, a, q);
    case Write(j, pos, data) =>
      var z := ZoneAt(m.s, j, Leaf(pos / 1024));
      DataWriteKeepsTrees(m.s, j, Leaf(pos / 1024), Splice(m.s.disk[z], pos % 1024, data), Max(m.s.sizes[j], pos + |data|));
    case Look(_, _, _) =>
    case Late(b, pos, data) =>
      assert LookOk(m, b);
      LandedTrees(m.s, m.acts[b].z, t.s);
    case Cut(j, bad, seen) => TruncateExact(m.s, j, bad, seen);
  }

  lemma FinishElsewhere(m: System, b: nat, a: nat, q: Path)
    requires Inv(m) && Solo(m) && Enabled(m, Finish(a)) && Enabled(m, Finish(b)) && a != b && m.s.held[m.acts[b].z] == 0
    requires ValidPath(q) && (q == m.acts[a].p || (!IsRoot(m.acts[a].p) && q == Parent(m.acts[a].p)))
    ensures var i := m.acts[a].i;
      IsFile(m.s, i) && IsFile(Apply(m, Finish(b)).s, i) && ZoneAt(Apply(m, Finish(b)).s, i, q) == ZoneAt(m.s, i, q)
  {
    var act, i := m.acts[b], m.acts[a].i;
    FinishReady(m, a);
    FinishReady(m, b);
    assert Clean(m, Finish(a)) && Clean(m, Finish(b));
    assert Fills(m.acts, a, i, m.acts[a].p) && (Fills(m.acts, b, i, m.acts[a].p) ==> a == b);
    RecordPlaces(m.s, act, i, q);
    if i == act.i && Below(act.p, q) {
      BelowEmpty(m.s, i, act.p, q);
    }
  }

  /** No buffer of a free zone, or of one in flight, is counted. */
  ghost predicate UpToDate(m: System)
    requires ShapeOk(m.s)
  {
    forall z: Zone | DataZone(m.s, z) && m.s.held[z] > 0 :: Bit(m.s, z) && !InFlight(m.acts, z)
  }

  /** As long as buffers are only counted of zones that are recorded at that moment, new_block
      never panics. */
  lemma UpToDateNoPanic(m: System, step: Step)
    requires Inv(m) && UpToDate(m) && Enabled(m, step) && (step.Hold? ==> Reachable(m.s, step.z))
    ensures !Apply(m, step).s.panicked && ShapeOk(Apply(m, step).s) && UpToDate(Apply(m, step))
  {
    var t := Apply(m, step);
    PanicIff(m, step);
    match step
    case Hold(a, z) => HoldUpToDate(m, a, z);
    case Drop(a) =>
      forall b: nat, y: Zone ensures Carries(t.acts, b, y) <==> Carries(m.acts, b, y) {
      }
      SameCarries(m, t);
    case Begin(a, i, p) => BeginUpToDate(m, a, i, p);
    case Finish(a) =>
      assert Carries(m.acts, a, m.acts[a].z) && FillOk(m, a);
      FinishTrees(m, a);
      forall y: Zone ensures InFlight(t.acts, y) ==> InFlight(m.acts, y) {
        FinishFlight(m, a, y);
      }
    case Write(_, _, _) =>
    case Look(a, _, _) =>
      forall b: nat, y: Zone ensures Carries(t.acts, b, y) <==> Carries(m.acts, b, y) {
      }
      SameCarries(m, t);
    case Late(a, _, _) =>
      assert LookOk(m, a);
      forall b: nat, y: Zone ensures Carries(t.acts, b, y) <==> Carries(m.acts, b, y) {
      }
      SameCarries(m, t);
    case Cut(i, bad, seen) => CutUpToDate(m, i, bad, seen);
  }

  lemma CutUpToDate(m: System, i: nat, bad: set<Zone>, seen: set<Zone>)
    requires Inv(m) && UpToDate(m) && Enabled(m, Cut(i, bad, seen))
    ensures ShapeOk(Apply(m, Cut(i, bad, seen)).s) && UpToDate(Apply(m, Cut(i, bad, seen)))
  {
    var t := Apply(m, Cut(i, bad, seen));
    TruncateExact(m.s, i, bad, seen);
    TruncateFrees(m.s, i, bad, seen);
    forall z: Zone | DataZone(t.s, z) && t.s.held[z] > 0 ensures Bit(t.s, z) && !InFlight(t.acts, z) {
      TruncateCounts(m.s, i, bad, z, seen);
      if m.s.held[z] == 0 {
        FoundUsed(m.s, i, z, bad);
        var p: Path :| ValidPath(p) && ZoneAt(m.s, i, p) == z && Readable(m.s, i, p, bad);
        ReachableNotInFlight(m, i, p);
      }
    }
  }

  lemma HoldUpToDate(m: System, a: nat, z: Zone)
    requires Inv(m) && UpToDate(m) && Enabled(m, Hold(a, z)) && Reachable(m.s, z)
    ensures ShapeOk(Apply(m, Hold(a, z)).s) && UpToDate(Apply(m, Hold(a, z)))
  {
    var t := Apply(m, Hold(a, z));
    var i: nat, p: Path :| IsFile(m.s, i) && ValidPath(p) && ZoneAt(m.s, i, p) == z;
    ReachableNotInFlight(m, i, p);
    assert Used(m.s, i, p);
    forall b: nat, y: Zone ensures Carries(t.acts, b, y) <==> Carries(m.acts, b, y) {
    }
    SameCarries(m, t);
  }

  lemma BeginUpToDate(m: System, a: nat, i: nat, p: Path)
    requires Inv(m) && UpToDate(m) && Enabled(m, Begin(a, i, p))
    ensures ShapeOk(Apply(m, Begin(a, i, p)).s) && UpToDate(Apply(m, Begin(a, i, p)))
  {
    var t, z, block := Apply(m, Begin(a, i, p)), TakeBit(m.s).1, ParentZone(m.s, i, p);
    TakeKeeps(m.s, t.s.held);
    if z != 0 {
      forall b: nat, y: Zone ensures Carries(t.acts, b, y) <==> Carries(m.acts, b, y) || (b == a && y == z) {
      }
      forall y: Zone ensures InFlight(t.acts, y) <==> InFlight(m.acts, y) || y == z {
        FlightAdded(m.acts, t.acts, a, z, y);
      }
      if block != 0 {
        ReachableNotInFlight(m, i, Parent(p));
        assert Used(m.s, i, Parent(p));
      }
    }
  }

  // ---- where runs start ------------------------------------------------------------------------

  ghost predicate FsInv(s: State) {
    Conserved(s) && ZeroTail(s)
  }

  /** n inodes for files, all empty, and every data zone free. */
  ghost function EmptyFs(first: nat, nzones: nat, n: nat): State
    requires 1 <= first <= nzones < 0x1_0000
  {
    State(seq(nzones - first + 1, k => k == 0), first, nzones, ZeroBlocks(),
          seq(n, _ => true), seq(n, _ => [0, 0, 0, 0, 0, 0, 0, 0, 0]), seq(n, _ => 0), multiset{}, false)
  }

  lemma EmptyFsInv(first: nat, nzones: nat, n: nat)
    requires 1 <= first <= nzones < 0x1_0000
    ensures FsInv(EmptyFs(first, nzones, n))
  {
    var s := EmptyFs(first, nzones, n);
    forall i: nat, p: Path | IsFile(s, i) && ValidPath(p) ensures ZoneAt(s, i, p) == 0 {
    }
    forall i: nat, pos: nat | IsFile(s, i) ensures ByteAt(s, i, pos) == 0 {
    }
  }

  /** A file system in order, no buffer counted and nothing under way, is where a run can start. */
  lemma StartInv(s: State)
    requires FsInv(s)
    ensures Inv(System(s, map[])) && Solo(System(s, map[]))
    ensures (forall z: Zone :: s.held[z] == 0) ==> UpToDate(System(s, map[]))
    ensures forall z: Zone :: !Lost(System(s, map[]), z)
  {
    var m := System(s, map[]);
    forall z: Zone ensures CountOk(m, z) && !Lost(m, z) {
      assert Holders(m.acts, z) == {};
      assert !Stray(s, z);
    }
  }
}
