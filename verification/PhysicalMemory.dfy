/** Physical memory seen by mm/memory.c: page frames, the page directory and the
    page tables, all living in one array of 4 KB frames, and the counting argument
    behind mem_map[]. */
module PhysicalMemory {

  /** Frame number of LOW_MEM: frames below it are never counted. */
  const LOW: nat := 0x100
  /** Frames counted by mem_map[]. */
  const PAGING_PAGES: nat := 3840
  /** Entries in the directory and in every table. */
  const ENTRIES: nat := 1024
  /** First directory slot of task 1; the slots below belong to the kernel and task 0. */
  const FIRST_USER: nat := 16
  /** Entries copied when task 0 forks: 0xA0 pages, 640 KB. */
  const KERNEL_PAGES: nat := 0xA0
  /** mem_map[] value of a frame that is not for paging. */
  const USED: nat := 100

  type Frame = f: nat | f < 0x10_0000
  type Rest = r: nat | r < 256

  /** A 32-bit word seen through the page-entry bit fields: bits 12..31, then bits
      0 (present), 1 (writable), 2 (user), 6 (dirty), and the remaining eight. */
  datatype Word = Word(frame: Frame, present: bool, writable: bool, user: bool, dirty: bool, rest: Rest)

  const ZERO: Word := Word(0, false, false, false, false, 0)

  type Page = p: seq<Word> | |p| == 1024 ghost witness seq(1024, _ => ZERO)
  type Phys = p: seq<Page> | |p| == 0x10_0000 ghost witness seq(0x10_0000, _ => seq(1024, _ => ZERO))
  type MemMap = m: seq<nat> | |m| == PAGING_PAGES ghost witness seq(PAGING_PAGES, _ => 0)

  function ZeroPage(): Page {
    seq(1024, _ => ZERO)
  }

  /** `frame | 7`: present, writable, user. */
  function Mapped(f: Frame): Word {
    Word(f, true, true, true, false, 0)
  }

  /** The paging state. `held` is bookkeeping that the C code leaves implicit: how
      many kernel variables hold each frame (task structures, pipe buffers, a page
      on its way into a table, USED for reserved frames). */
  datatype State = State(memMap: MemMap, phys: Phys, high: nat, held: MemMap, panicked: bool)

  predicate Managed(f: Frame) {
    LOW <= f < LOW + PAGING_PAGES
  }

  predicate IsUser(d: nat) {
    FIRST_USER <= d < ENTRIES
  }

  /** The page-table entry for slot k of directory entry d. The directory is frame 0. */
  function Entry(p: Phys, d: nat, k: nat): Word
    requires d < ENTRIES && k < ENTRIES
  {
    p[p[0][d].frame][k]
  }

  /** Site (d, k) names frame f: k < 1024 is an entry of table d, k == 1024 the
      directory's own reference to table d. */
  ghost predicate Names(p: Phys, d: nat, k: nat, f: Frame)
    requires d < ENTRIES && k <= ENTRIES
  {
    p[0][d].present &&
    if k == ENTRIES then p[0][d].frame == f else Entry(p, d, k).present && Entry(p, d, k).frame == f
  }

  ghost function Sites(p: Phys, f: Frame): set<(nat, nat)> {
    set d: nat, k: nat | FIRST_USER <= d < ENTRIES && k <= ENTRIES && Names(p, d, k, f) :: (d, k)
  }

  /** mem_map[] counts exactly the user sites naming a frame plus its kernel holders. */
  ghost predicate Counted(s: State) {
    forall f: Frame | Managed(f) :: s.memMap[f - LOW] == |Sites(s.phys, f)| + s.held[f - LOW]
  }

  ghost predicate TableOk(s: State, d: nat)
    requires IsUser(d)
  {
    var t := s.phys[0][d];
    t.present ==> LOW <= t.frame < s.high <= LOW + PAGING_PAGES && s.memMap[t.frame - LOW] == 1
  }

  /** A present entry names real memory, and a writable one names a frame nobody shares. */
  ghost predicate EntryOk(s: State, d: nat, k: nat)
    requires IsUser(d) && k < ENTRIES
  {
    var w := Entry(s.phys, d, k);
    s.phys[0][d].present && w.present ==>
      w.frame < s.high <= LOW + PAGING_PAGES && (w.writable ==> LOW <= w.frame && s.memMap[w.frame - LOW] == 1)
  }

  /** Task 0 runs in the first 640 KB, mapped by a table in low memory. */
  ghost predicate KernelOk(s: State) {
    var t := s.phys[0][0];
    t.present && 0 < t.frame < LOW &&
    forall k | 0 <= k < KERNEL_PAGES :: Entry(s.phys, 0, k).present && Entry(s.phys, 0, k).frame < LOW
  }

  ghost predicate Inv(s: State) {
    && !s.panicked
    && LOW <= s.high <= LOW + PAGING_PAGES
    && (forall f: Frame | s.high <= f && Managed(f) :: s.held[f - LOW] > 0)
    && Counted(s)
    && (forall d: nat | IsUser(d) :: TableOk(s, d))
    && (forall d: nat, k: nat | IsUser(d) && 0 <= k < ENTRIES :: EntryOk(s, d, k))
    && KernelOk(s)
  }

  /** What a process reads at page k of directory slot d: nothing, kernel memory below
      LOW_MEM shared with task 0, or a page with these contents. */
  datatype View = Absent | Kernel(frame: Frame) | Private(page: Page)

  ghost function ViewAt(s: State, d: nat, k: nat): View
    requires d < ENTRIES && k < ENTRIES
  {
    var w := Entry(s.phys, d, k);
    if !s.phys[0][d].present || !w.present then Absent
    else if w.frame < LOW then Kernel(w.frame)
    else Private(s.phys[w.frame])
  }

  /** Page k of slot d names the same frame with the same contents; only permission
      and dirty bits may differ. */
  ghost predicate SameSlot(s: State, t: State, d: nat, k: nat)
    requires d < ENTRIES && k < ENTRIES
  {
    var v, w := Entry(s.phys, d, k), Entry(t.phys, d, k);
    s.phys[0][d].present ==>
      v.present == w.present &&
      (v.present ==> v.frame == w.frame && (v.frame >= LOW ==> s.phys[v.frame] == t.phys[w.frame]))
  }

  ghost predicate SameSpace(s: State, t: State, d: nat)
    requires d < ENTRIES
  {
    && s.phys[0][d].present == t.phys[0][d].present
    && (s.phys[0][d].present ==> s.phys[0][d].frame == t.phys[0][d].frame)
    && forall k | 0 <= k < ENTRIES :: SameSlot(s, t, d, k)
  }

  lemma SameSpaceViews(s: State, t: State, d: nat, k: nat)
    requires d < ENTRIES && k < ENTRIES && SameSpace(s, t, d)
    ensures ViewAt(s, d, k) == ViewAt(t, d, k)
  {
    assert SameSlot(s, t, d, k);
  }

  lemma SameSpaceTrans(s: State, t: State, u: State, d: nat)
    requires d < ENTRIES && SameSpace(s, t, d) && SameSpace(t, u, d)
    ensures SameSpace(s, u, d)
  {
    forall k | 0 <= k < ENTRIES ensures SameSlot(s, u, d, k) {
      assert SameSlot(s, t, d, k) && SameSlot(t, u, d, k);
    }
  }

  // ---- counting -------------------------------------------------------------

  lemma AtMostOne<T>(s: set<T>, x: T, y: T)
    requires |s| <= 1 && x in s && y in s
    ensures x == y
  {
    assert |s - {x}| == 0;
    assert y !in s - {x};
  }

  /** A frame counted once has one reference: this is what makes the counts enforce isolation. */
  lemma OneReference(s: State, f: Frame, d: nat, k: nat, e: nat, j: nat)
    requires Counted(s) && Managed(f) && s.memMap[f - LOW] <= 1
    requires IsUser(d) && IsUser(e) && k <= ENTRIES && j <= ENTRIES
    requires Names(s.phys, d, k, f) && Names(s.phys, e, j, f)
    ensures d == e && k == j && s.held[f - LOW] == 0 && s.memMap[f - LOW] == 1
  {
    assert (d, k) in Sites(s.phys, f) && (e, j) in Sites(s.phys, f);
    AtMostOne(Sites(s.phys, f), (d, k), (e, j));
    assert Sites(s.phys, f) != {};
    assert |Sites(s.phys, f)| > 0;
  }

  /** Changing what one site names moves the two counts concerned by one, and no other. */
  lemma SitesChange(p: Phys, q: Phys, d: nat, k: nat, f: Frame)
    requires IsUser(d) && k <= ENTRIES
    requires forall e: nat, j: nat | IsUser(e) && j <= ENTRIES && (e != d || j != k) :: Names(p, e, j, f) == Names(q, e, j, f)
    ensures |Sites(q, f)| == |Sites(p, f)| - (if Names(p, d, k, f) then 1 else 0) + (if Names(q, d, k, f) then 1 else 0)
  {
    forall e: nat, j: nat | e != d || j != k
      ensures (e, j) in Sites(p, f) <==> (e, j) in Sites(q, f)
    {
    }
    SetChange(Sites(p, f), Sites(q, f), (d, k));
  }

  lemma SetChange<T>(s: set<T>, t: set<T>, x: T)
    requires forall y | y != x :: y in s <==> y in t
    ensures |t| == |s| - (if x in s then 1 else 0) + (if x in t then 1 else 0)
  {
    assert s - {x} == t - {x};
    assert |s - {x}| == |s| - |s * {x}| && |t - {x}| == |t| - |t * {x}|;
    assert s * {x} == if x in s then {x} else {};
    assert t * {x} == if x in t then {x} else {};
  }

  lemma SitesSame(p: Phys, q: Phys, f: Frame)
    requires forall d: nat, k: nat | IsUser(d) && 0 <= k <= ENTRIES :: Names(p, d, k, f) == Names(q, d, k, f)
    ensures Sites(p, f) == Sites(q, f)
  {
  }
}
