/** The page allocator, demand zeroing, copy on write, sharing and fork of
    mm/memory.c as functions on paging states, with what each step keeps. */
module Paging {
  import opened PhysicalMemory

  function SetEntry(p: Phys, d: nat, k: nat, w: Word): Phys
    requires d < ENTRIES && k < ENTRIES
  {
    p[p[0][d].frame := p[p[0][d].frame][k := w]]
  }

  function SetDir(p: Phys, d: nat, w: Word): Phys
    requires d < ENTRIES
  {
    p[0 := p[0][d := w]]
  }

  function Panic(s: State): State {
    s.(panicked := true)
  }

  /** One past the highest zero among the first n counts, or 0. */
  function LastFree(m: seq<nat>, n: nat): (i: nat)
    requires n <= |m|
    ensures i <= n
    ensures i > 0 ==> m[i - 1] == 0
    ensures forall j | i <= j < n :: m[j] != 0
  {
    if n == 0 || m[n - 1] == 0 then n else LastFree(m, n - 1)
  }

  /** Adds delta to the count of f; frames outside the counted range have none. */
  function Adjust(m: MemMap, f: Frame, delta: int): MemMap {
    if Managed(f) && m[f - LOW] + delta >= 0 then m[f - LOW := m[f - LOW] + delta] else m
  }

  /** Frame number of mem_map[i - 1]. */
  function FrameOf(i: nat): Frame
    requires 0 < i <= PAGING_PAGES
  {
    LOW + i - 1
  }

  function TakePage(s: State, f: Frame): State {
    s.(memMap := Adjust(s.memMap, f, 1), phys := s.phys[f := ZeroPage()], held := Adjust(s.held, f, 1))
  }

  /** get_free_page: the highest free frame, zeroed and counted once; 0 when none is left. */
  function GetFreePage(s: State): (State, Frame) {
    var i := LastFree(s.memMap, PAGING_PAGES);
    if i == 0 then (s, 0) else (TakePage(s, FrameOf(i)), FrameOf(i))
  }

  function FreePage(s: State, f: Frame): State {
    if f < LOW then s
    else if f >= s.high || !Managed(f) || s.memMap[f - LOW] == 0 then Panic(s)
    else s.(memMap := Adjust(s.memMap, f, -1))
  }

  /** A kernel variable gives its page back. */
  function Release(s: State, f: Frame): State {
    var t := FreePage(s, f);
    t.(held := Adjust(t.held, f, -1))
  }

  function ClearEntry(s: State, d: nat, k: nat): State
    requires d < ENTRIES && k < ENTRIES
  {
    var w := Entry(s.phys, d, k);
    var t := if w.present then FreePage(s, w.frame) else s;
    t.(phys := SetEntry(t.phys, d, k, ZERO))
  }

  function ClearTable(s: State, d: nat, k: nat): State
    requires d < ENTRIES && k <= ENTRIES
    decreases ENTRIES - k
  {
    if k == ENTRIES then s else ClearTable(ClearEntry(s, d, k), d, k + 1)
  }

  function DropTable(s: State, d: nat): State
    requires d < ENTRIES
  {
    var t := FreePage(s, s.phys[0][d].frame);
    t.(phys := SetDir(t.phys, d, ZERO))
  }

  function FreeTables(s: State, d: nat, n: nat): State
    requires d + n <= ENTRIES
    decreases n
  {
    if n == 0 then s
    else if !s.phys[0][d].present then FreeTables(s, d + 1, n - 1)
    else FreeTables(DropTable(ClearTable(s, d, 0), d), d + 1, n - 1)
  }

  /** A fresh page held by the kernel becomes the table of slot d. */
  function InstallTable(s: State, d: nat, f: Frame): State
    requires d < ENTRIES
  {
    s.(phys := SetDir(s.phys, d, Mapped(f)), held := Adjust(s.held, f, -1))
  }

  /** Copies entry k write-protected, protecting the original too when it is counted. */
  function ShareEntry(s: State, fd: nat, td: nat, k: nat): State
    requires fd < ENTRIES && td < ENTRIES && k < ENTRIES
  {
    var w := Entry(s.phys, fd, k).(writable := false);
    if !w.present then s
    else if w.frame < LOW then s.(phys := SetEntry(s.phys, td, k, w))
    else if !Managed(w.frame) then Panic(s)
    else s.(phys := SetEntry(SetEntry(s.phys, td, k, w), fd, k, w),
            memMap := Adjust(s.memMap, w.frame, 1))
  }

  function CopyEntries(s: State, fd: nat, td: nat, k: nat, nr: nat): State
    requires fd < ENTRIES && td < ENTRIES && k <= nr <= ENTRIES
    decreases nr - k
  {
    if k == nr then s else CopyEntries(ShareEntry(s, fd, td, k), fd, td, k + 1, nr)
  }

  /** copy_page_tables over n slots; false when it ran out of memory part-way. */
  function CopyTables(s: State, fd: nat, td: nat, n: nat, nr: nat): (State, bool)
    requires fd + n <= ENTRIES && td + n <= ENTRIES && nr <= ENTRIES
    decreases n
  {
    if n == 0 then (s, true)
    else if s.phys[0][td].present then (Panic(s), true)
    else if !s.phys[0][fd].present then CopyTables(s, fd + 1, td + 1, n - 1, nr)
    else
      var (t, f) := GetFreePage(s);
      if f == 0 then (t, false)
      else CopyTables(CopyEntries(InstallTable(t, td, f), fd, td, 0, nr), fd + 1, td + 1, n - 1, nr)
  }

  /** copy_mem: copy the tables, and undo everything when memory ran out. */
  function Fork(s: State, fd: nat, td: nat, n: nat): (State, bool)
    requires fd + n <= ENTRIES && td + n <= ENTRIES
  {
    var (t, ok) := CopyTables(s, fd, td, n, if fd == 0 then KERNEL_PAGES else ENTRIES);
    if ok then (t, true) else (FreeTables(t, td, n), false)
  }

  function MapHeld(s: State, d: nat, k: nat, f: Frame): State
    requires d < ENTRIES && k < ENTRIES
  {
    s.(phys := SetEntry(s.phys, d, k, Mapped(f)), held := Adjust(s.held, f, -1))
  }

  function PutPage(s: State, f: Frame, d: nat, k: nat): (State, bool)
    requires d < ENTRIES && k < ENTRIES
  {
    if s.phys[0][d].present then (MapHeld(s, d, k, f), true)
    else
      var (t, g) := GetFreePage(s);
      if g == 0 then (t, false) else (MapHeld(InstallTable(t, d, g), d, k, f), true)
  }

  function GetEmptyPage(s: State, d: nat, k: nat): (State, bool)
    requires d < ENTRIES && k < ENTRIES
  {
    var (t, f) := GetFreePage(s);
    if f == 0 then (t, false)
    else
      var (u, ok) := PutPage(t, f, d, k);
      if ok then (u, true) else (Release(u, f), false)
  }

  /** The private copy of a shared page replaces it, and the share is given up. */
  function CopyPage(s: State, d: nat, k: nat, f: Frame): State
    requires d < ENTRIES && k < ENTRIES
  {
    var from := Entry(s.phys, d, k).frame;
    s.(memMap := Adjust(s.memMap, from, -1), phys := SetEntry(s.phys, d, k, Mapped(f))[f := s.phys[from]],
       held := Adjust(s.held, f, -1))
  }

  /** un_wp_page: reuse an unshared page, copy a shared one; false when out of memory. */
  function UnWp(s: State, d: nat, k: nat): (State, bool)
    requires d < ENTRIES && k < ENTRIES
  {
    var w := Entry(s.phys, d, k);
    if Managed(w.frame) && s.memMap[w.frame - LOW] == 1 then
      (s.(phys := SetEntry(s.phys, d, k, w.(writable := true))), true)
    else
      var (t, f) := GetFreePage(s);
      if f == 0 then (t, false) else (CopyPage(t, d, k, f), true)
  }

  function WriteVerify(s: State, d: nat, k: nat): (State, bool)
    requires d < ENTRIES && k < ENTRIES
  {
    var w := Entry(s.phys, d, k);
    if s.phys[0][d].present && w.present && !w.writable then UnWp(s, d, k) else (s, true)
  }

  /** A user-mode store: the page fault it may take first, then the store itself,
      which sets the dirty bit. */
  function Store(s: State, d: nat, k: nat, o: nat, x: Word): (State, bool)
    requires d < ENTRIES && k < ENTRIES && o < ENTRIES
  {
    var (t, ok) := if s.phys[0][d].present && Entry(s.phys, d, k).present
                   then WriteVerify(s, d, k) else GetEmptyPage(s, d, k);
    if ok then (StoreWord(t, d, k, o, x), true) else (t, false)
  }

  function StoreWord(s: State, d: nat, k: nat, o: nat, x: Word): State
    requires d < ENTRIES && k < ENTRIES && o < ENTRIES
  {
    var w := Entry(s.phys, d, k);
    s.(phys := SetEntry(s.phys, d, k, w.(dirty := true))[w.frame := s.phys[w.frame][o := x]])
  }

  datatype Sharing = NotShared | Shared | OutOfMemory

  /** try_to_share: map the clean page another task runs from, write-protected in both. */
  function TryToShare(s: State, fd: nat, td: nat, k: nat): (State, Sharing)
    requires fd < ENTRIES && td < ENTRIES && k < ENTRIES
  {
    var w := Entry(s.phys, fd, k);
    if !s.phys[0][fd].present || !w.present || w.dirty || w.frame >= s.high || w.frame < LOW then (s, NotShared)
    else
      var (t, g) := if s.phys[0][td].present then (s, 0) else GetFreePage(s);
      if !s.phys[0][td].present && g == 0 then (t, OutOfMemory)
      else
        var u := if s.phys[0][td].present then t else InstallTable(t, td, g);
        if Entry(u.phys, td, k).present then (Panic(u), Shared)
        else (ShareEntry(u, fd, td, k), Shared)
  }

  // ---- what single steps keep --------------------------------------------------

  /** No directory entry in use refers to f as a table. */
  ghost predicate NotTable(p: Phys, f: Frame) {
    f != 0 && (p[0][0].present ==> p[0][0].frame != f) &&
    forall d: nat | IsUser(d) && p[0][d].present :: p[0][d].frame != f
  }

  lemma PageWriteKeepsEntries(p: Phys, f: Frame, pg: Page)
    requires NotTable(p, f)
    ensures var q := p[f := pg];
      q[0] == p[0] &&
      (forall d: nat, k: nat | (IsUser(d) || d == 0) && p[0][d].present && k < ENTRIES :: Entry(q, d, k) == Entry(p, d, k)) &&
      forall g: Frame :: Sites(q, g) == Sites(p, g)
  {
    var q := p[f := pg];
    forall g: Frame ensures Sites(q, g) == Sites(p, g) {
      forall d: nat, k: nat | IsUser(d) && 0 <= k <= ENTRIES ensures Names(p, d, k, g) == Names(q, d, k, g) {
      }
      SitesSame(p, q, g);
    }
  }

  /** The table of slot d is nobody else's. */
  ghost predicate OwnTable(p: Phys, d: nat)
    requires IsUser(d)
  {
    p[0][d].present && p[0][d].frame >= LOW && (p[0][0].present ==> p[0][0].frame < LOW) &&
    forall e: nat | IsUser(e) && e != d && p[0][e].present :: p[0][e].frame != p[0][d].frame
  }

  lemma TablesAreOwn(s: State, d: nat)
    requires Inv(s) && IsUser(d) && s.phys[0][d].present
    ensures OwnTable(s.phys, d)
    ensures forall e: nat, k: nat | IsUser(e) && k < ENTRIES && s.phys[0][e].present && Entry(s.phys, e, k).present ::
              Entry(s.phys, e, k).frame != s.phys[0][d].frame
  {
    var f := s.phys[0][d].frame;
    assert TableOk(s, d) && Names(s.phys, d, ENTRIES, f);
    forall e: nat | IsUser(e) && e != d && s.phys[0][e].present ensures s.phys[0][e].frame != f {
      if s.phys[0][e].frame == f {
        assert Names(s.phys, e, ENTRIES, f);
        OneReference(s, f, d, ENTRIES, e, ENTRIES);
      }
    }
    forall e: nat, k: nat | IsUser(e) && k < ENTRIES && s.phys[0][e].present && Entry(s.phys, e, k).present
      ensures Entry(s.phys, e, k).frame != f
    {
      if Entry(s.phys, e, k).frame == f {
        assert Names(s.phys, e, k, f);
        OneReference(s, f, d, ENTRIES, e, k);
      }
    }
  }

  lemma EntryWrite(p: Phys, d: nat, k: nat, w: Word)
    requires IsUser(d) && k < ENTRIES && OwnTable(p, d)
    ensures var q := SetEntry(p, d, k, w);
      q[0] == p[0] && Entry(q, d, k) == w &&
      (forall e: nat, j: nat | IsUser(e) && j < ENTRIES && p[0][e].present && (e != d || j != k) :: Entry(q, e, j) == Entry(p, e, j)) &&
      (forall j: nat | j < ENTRIES && p[0][0].present :: Entry(q, 0, j) == Entry(p, 0, j)) &&
      (forall f: Frame | f != p[0][d].frame :: q[f] == p[f]) &&
      forall f: Frame :: |Sites(q, f)| == |Sites(p, f)| - (if Names(p, d, k, f) then 1 else 0) + (if Names(q, d, k, f) then 1 else 0)
  {
    var q := SetEntry(p, d, k, w);
    forall f: Frame
      ensures |Sites(q, f)| == |Sites(p, f)| - (if Names(p, d, k, f) then 1 else 0) + (if Names(q, d, k, f) then 1 else 0)
    {
      forall e: nat, j: nat | IsUser(e) && j <= ENTRIES && (e != d || j != k) ensures Names(p, e, j, f) == Names(q, e, j, f) {
      }
      SitesChange(p, q, d, k, f);
    }
  }

  /** Task 0's table is untouched. */
  ghost predicate KernelSame(s: State, t: State) {
    t.phys[0][0] == s.phys[0][0] && forall k: nat | k < KERNEL_PAGES :: Entry(t.phys, 0, k) == Entry(s.phys, 0, k)
  }

  /** t keeps the invariant and every user slot but d as it was in s. */
  ghost predicate Keeps(s: State, t: State, d: nat) {
    Inv(t) && t.high == s.high && KernelSame(s, t) && forall e: nat | IsUser(e) && e != d :: SameSpace(s, t, e)
  }

  lemma TakePageKeeps(s: State, f: Frame)
    requires Inv(s) && Managed(f) && s.memMap[f - LOW] == 0
    ensures var t := TakePage(s, f);
      && Keeps(s, t, ENTRIES) && f < s.high && NotTable(t.phys, f) && Sites(t.phys, f) == {}
      && t.memMap[f - LOW] == 1 && t.held[f - LOW] == 1 && t.phys[f] == ZeroPage() && t.phys[0] == s.phys[0]
      && forall d: nat, k: nat | IsUser(d) && k < ENTRIES && s.phys[0][d].present :: Entry(t.phys, d, k) == Entry(s.phys, d, k)
  {
    var t := TakePage(s, f);
    assert |Sites(s.phys, f)| == 0;
    forall d: nat | IsUser(d) && s.phys[0][d].present ensures s.phys[0][d].frame != f {
      assert TableOk(s, d);
    }
    PageWriteKeepsEntries(s.phys, f, ZeroPage());
    forall d: nat, k: nat | IsUser(d) && k < ENTRIES ensures EntryOk(t, d, k) && SameSlot(s, t, d, k) {
      assert EntryOk(s, d, k);
      assert Names(s.phys, d, k, f) ==> (d, k) in Sites(s.phys, f);
    }
    forall d: nat | IsUser(d) ensures TableOk(t, d) {
      assert TableOk(s, d);
    }
  }

  /** A zeroed page the kernel holds becomes slot d's empty table. */
  lemma InstallTableKeeps(s: State, d: nat, f: Frame)
    requires Inv(s) && IsUser(d) && !s.phys[0][d].present && Managed(f) && f < s.high
    requires s.memMap[f - LOW] == 1 && s.held[f - LOW] == 1 && s.phys[f] == ZeroPage()
    ensures var t := InstallTable(s, d, f);
      && Keeps(s, t, d) && t.phys[0][d].present && t.phys[0][d].frame == f
      && forall k: nat | k < ENTRIES :: !Entry(t.phys, d, k).present
  {
    var t := InstallTable(s, d, f);
    assert Sites(s.phys, f) == {};
    forall e: nat, k: nat | IsUser(e) && k <= ENTRIES && s.phys[0][e].present ensures !Names(s.phys, e, k, f) {
      assert Names(s.phys, e, k, f) ==> (e, k) in Sites(s.phys, f);
    }
    forall g: Frame | Managed(g) ensures t.memMap[g - LOW] == |Sites(t.phys, g)| + t.held[g - LOW] {
      forall e: nat, j: nat | IsUser(e) && j <= ENTRIES && (e != d || j != ENTRIES)
        ensures Names(s.phys, e, j, g) == Names(t.phys, e, j, g)
      {
      }
      SitesChange(s.phys, t.phys, d, ENTRIES, g);
    }
    forall e: nat, k: nat | IsUser(e) && k < ENTRIES ensures EntryOk(t, e, k) && (e != d ==> SameSlot(s, t, e, k)) {
      assert EntryOk(s, e, k);
    }
    forall e: nat | IsUser(e) ensures TableOk(t, e) {
      assert TableOk(s, e);
    }
    assert forall k: nat | k < KERNEL_PAGES :: Entry(t.phys, 0, k) == Entry(s.phys, 0, k);
  }

  lemma DropTableKeeps(s: State, d: nat)
    requires Inv(s) && IsUser(d) && s.phys[0][d].present
    requires forall k: nat | k < ENTRIES :: !Entry(s.phys, d, k).present
    ensures var t := DropTable(s, d); Keeps(s, t, d) && !t.phys[0][d].present && t.held == s.held
  {
    var t := DropTable(s, d);
    var f := s.phys[0][d].frame;
    assert TableOk(s, d);
    TablesAreOwn(s, d);
    forall g: Frame | Managed(g) ensures t.memMap[g - LOW] == |Sites(t.phys, g)| + t.held[g - LOW] {
      forall e: nat, j: nat | IsUser(e) && j <= ENTRIES && (e != d || j != ENTRIES)
        ensures Names(s.phys, e, j, g) == Names(t.phys, e, j, g)
      {
      }
      SitesChange(s.phys, t.phys, d, ENTRIES, g);
    }
    forall e: nat, k: nat | IsUser(e) && k < ENTRIES ensures EntryOk(t, e, k) && (e != d ==> SameSlot(s, t, e, k)) {
      assert EntryOk(s, e, k);
    }
    forall e: nat | IsUser(e) ensures TableOk(t, e) {
      assert TableOk(s, e);
    }
    assert forall k: nat | k < KERNEL_PAGES :: Entry(t.phys, 0, k) == Entry(s.phys, 0, k);
  }

  /** Entries of slot d are written one at a time: everything about other entries stays. */
  ghost predicate OnlyEntry(s: State, t: State, d: nat, k: nat)
    requires d < ENTRIES && k < ENTRIES
  {
    && t.phys[0] == s.phys[0]
    && forall j: nat | j < ENTRIES && j != k :: Entry(t.phys, d, j) == Entry(s.phys, d, j)
  }

  lemma ClearEntryKeeps(s: State, d: nat, k: nat)
    requires Inv(s) && IsUser(d) && k < ENTRIES && s.phys[0][d].present
    ensures var t := ClearEntry(s, d, k);
      Keeps(s, t, d) && OnlyEntry(s, t, d, k) && !Entry(t.phys, d, k).present && t.held == s.held
  {
    var t := ClearEntry(s, d, k);
    var w := Entry(s.phys, d, k);
    TablesAreOwn(s, d);
    EntryWrite(s.phys, d, k, ZERO);
    assert EntryOk(s, d, k);
    assert w.present ==> Names(s.phys, d, k, w.frame) && (d, k) in Sites(s.phys, w.frame);
    forall e: nat, j: nat | IsUser(e) && j < ENTRIES ensures EntryOk(t, e, j) && (e != d ==> SameSlot(s, t, e, j)) {
      assert EntryOk(s, e, j);
      if e != d || j != k {
        OtherReference(s, d, k, e, j);
      }
    }
    forall e: nat | IsUser(e) ensures TableOk(t, e) {
      assert TableOk(s, e);
      OtherReference(s, d, k, e, ENTRIES);
    }
  }

  /** Two sites never name a frame that is counted once. */
  lemma OtherReference(s: State, d: nat, k: nat, e: nat, j: nat)
    requires Inv(s) && IsUser(d) && IsUser(e) && k < ENTRIES && j <= ENTRIES && (d != e || k != j)
    ensures forall f: Frame :: Names(s.phys, d, k, f) && Names(s.phys, e, j, f) && Managed(f) ==> s.memMap[f - LOW] >= 2
  {
    forall f: Frame | Names(s.phys, d, k, f) && Names(s.phys, e, j, f) && Managed(f) ensures s.memMap[f - LOW] >= 2 {
      if s.memMap[f - LOW] <= 1 {
        OneReference(s, f, d, k, e, j);
      }
    }
  }

  /** The kernel holds the only reference to f. */
  ghost predicate HeldOnce(s: State, f: Frame) {
    Managed(f) && f < s.high && s.memMap[f - LOW] == 1 && s.held[f - LOW] == 1
  }

  lemma HeldIsUnnamed(s: State, f: Frame)
    requires Inv(s) && HeldOnce(s, f)
    ensures Sites(s.phys, f) == {} && NotTable(s.phys, f)
    ensures forall d: nat, k: nat | IsUser(d) && k <= ENTRIES :: !Names(s.phys, d, k, f)
  {
    assert |Sites(s.phys, f)| == 0;
    forall d: nat, k: nat | IsUser(d) && k <= ENTRIES ensures !Names(s.phys, d, k, f) {
      assert Names(s.phys, d, k, f) ==> (d, k) in Sites(s.phys, f);
    }
    forall d: nat | IsUser(d) && s.phys[0][d].present ensures s.phys[0][d].frame != f {
      assert !Names(s.phys, d, ENTRIES, f);
    }
  }

  lemma MapHeldKeeps(s: State, d: nat, k: nat, f: Frame)
    requires Inv(s) && IsUser(d) && k < ENTRIES && s.phys[0][d].present && !Entry(s.phys, d, k).present && HeldOnce(s, f)
    ensures var t := MapHeld(s, d, k, f);
      Keeps(s, t, d) && OnlyEntry(s, t, d, k) && Entry(t.phys, d, k) == Mapped(f) && t.phys[f] == s.phys[f]
      && t.held == Adjust(s.held, f, -1)
      && forall j: nat | j < ENTRIES && j != k :: SameSlot(s, t, d, j)
  {
    var t := MapHeld(s, d, k, f);
    HeldIsUnnamed(s, f);
    TablesAreOwn(s, d);
    EntryWrite(s.phys, d, k, Mapped(f));
    forall e: nat, j: nat | IsUser(e) && j < ENTRIES ensures EntryOk(t, e, j) && (e != d || j != k ==> SameSlot(s, t, e, j)) {
      assert EntryOk(s, e, j);
      assert !Names(s.phys, e, j, f);
    }
    forall e: nat | IsUser(e) ensures TableOk(t, e) {
      assert TableOk(s, e);
    }
  }

  /** t is s with entry (td, k) set to w and, when `both`, entry (fd, k) too. */
  ghost predicate SharedInto(s: State, t: State, fd: nat, td: nat, k: nat, w: Word, both: bool)
    requires fd < ENTRIES && IsUser(td) && k < ENTRIES
  {
    && t.phys[0] == s.phys[0] && t.held == s.held && t.high == s.high && t.panicked == s.panicked
    && Entry(t.phys, td, k) == w
    && (both ==> Entry(t.phys, fd, k) == w)
    && (forall e: nat, j: nat | (IsUser(e) || e == 0) && j < ENTRIES && s.phys[0][e].present && (e != td || j != k) && (!both || e != fd || j != k) ::
          Entry(t.phys, e, j) == Entry(s.phys, e, j))
    && (forall f: Frame | f >= LOW && NotTable(s.phys, f) :: t.phys[f] == s.phys[f])
  }

  lemma ShareLow(s: State, fd: nat, td: nat, k: nat)
    requires Inv(s) && k < ENTRIES && fd < ENTRIES && IsUser(td) && s.phys[0][td].present && !Entry(s.phys, td, k).present
    requires Entry(s.phys, fd, k).present && Entry(s.phys, fd, k).frame < LOW
    ensures var t := ShareEntry(s, fd, td, k);
      SharedInto(s, t, fd, td, k, Entry(s.phys, fd, k).(writable := false), false) && Counted(t) && t.memMap == s.memMap
  {
    TablesAreOwn(s, td);
    EntryWrite(s.phys, td, k, Entry(s.phys, fd, k).(writable := false));
  }

  lemma ShareCounted(s: State, fd: nat, td: nat, k: nat)
    requires Inv(s) && k < ENTRIES && IsUser(fd) && IsUser(td) && fd != td
    requires s.phys[0][fd].present && s.phys[0][td].present && !Entry(s.phys, td, k).present
    requires Entry(s.phys, fd, k).present && Entry(s.phys, fd, k).frame >= LOW
    ensures var w := Entry(s.phys, fd, k).(writable := false); var t := ShareEntry(s, fd, td, k);
      SharedInto(s, t, fd, td, k, w, true) && Managed(w.frame) && Counted(t) && t.memMap == Adjust(s.memMap, w.frame, 1)
  {
    var w := Entry(s.phys, fd, k).(writable := false);
    var t := ShareEntry(s, fd, td, k);
    assert EntryOk(s, fd, k);
    TablesAreOwn(s, td);
    TablesAreOwn(s, fd);
    EntryWrite(s.phys, td, k, w);
    var p1 := SetEntry(s.phys, td, k, w);
    EntryWrite(p1, fd, k, w);
    forall g: Frame | Managed(g) ensures t.memMap[g - LOW] == |Sites(t.phys, g)| + t.held[g - LOW] {
      assert Names(p1, fd, k, g) == Names(t.phys, fd, k, g);
    }
  }

  /** One round of the inner loop of copy_page_tables. */
  lemma ShareEntryKeeps(s: State, fd: nat, td: nat, k: nat)
    requires Inv(s) && k < ENTRIES && IsUser(td) && s.phys[0][td].present && !Entry(s.phys, td, k).present && fd != td
    requires (IsUser(fd) && s.phys[0][fd].present) || (fd == 0 && k < KERNEL_PAGES)
    ensures var t := ShareEntry(s, fd, td, k);
      && Keeps(s, t, td) && OnlyEntry(s, t, td, k) && t.held == s.held
      && Entry(t.phys, td, k).present == Entry(s.phys, fd, k).present
      && (Entry(s.phys, fd, k).present ==> Entry(t.phys, td, k) == Entry(s.phys, fd, k).(writable := false))
  {
    var w := Entry(s.phys, fd, k).(writable := false);
    var t := ShareEntry(s, fd, td, k);
    if w.present && w.frame < LOW {
      ShareLow(s, fd, td, k);
      SharedKeeps(s, t, fd, td, k, false);
    } else if w.present {
      ShareCounted(s, fd, td, k);
      SharedKeeps(s, t, fd, td, k, true);
    }
  }

  lemma SharedKeeps(s: State, t: State, fd: nat, td: nat, k: nat, both: bool)
    requires Inv(s) && k < ENTRIES && IsUser(td) && s.phys[0][td].present && !Entry(s.phys, td, k).present
    requires fd < ENTRIES && fd != td && s.phys[0][fd].present && Entry(s.phys, fd, k).present
    requires SharedInto(s, t, fd, td, k, Entry(s.phys, fd, k).(writable := false), both) && Counted(t)
    requires if both then IsUser(fd) && Managed(Entry(s.phys, fd, k).frame) && t.memMap == Adjust(s.memMap, Entry(s.phys, fd, k).frame, 1)
             else Entry(s.phys, fd, k).frame < LOW && t.memMap == s.memMap
    ensures Keeps(s, t, td)
  {
    var f := Entry(s.phys, fd, k).frame;
    forall e: nat, j: nat | IsUser(e) && j < ENTRIES ensures EntryOk(t, e, j) && (e != td ==> SameSlot(s, t, e, j)) {
      SharedEntryOk(s, t, fd, td, k, both, e, j);
    }
    forall e: nat | IsUser(e) ensures TableOk(t, e) {
      assert TableOk(s, e);
      if both {
        OtherReference(s, fd, k, e, ENTRIES);
        assert s.phys[0][e].present && s.phys[0][e].frame == f ==> Names(s.phys, e, ENTRIES, f);
        assert Names(s.phys, fd, k, f);
      }
    }
    assert forall j: nat | j < KERNEL_PAGES :: Entry(t.phys, 0, j) == Entry(s.phys, 0, j);
  }

  lemma SharedEntryOk(s: State, t: State, fd: nat, td: nat, k: nat, both: bool, e: nat, j: nat)
    requires Inv(s) && k < ENTRIES && IsUser(td) && s.phys[0][td].present && !Entry(s.phys, td, k).present
    requires fd < ENTRIES && fd != td && s.phys[0][fd].present && Entry(s.phys, fd, k).present
    requires SharedInto(s, t, fd, td, k, Entry(s.phys, fd, k).(writable := false), both)
    requires if both then IsUser(fd) && Managed(Entry(s.phys, fd, k).frame) && t.memMap == Adjust(s.memMap, Entry(s.phys, fd, k).frame, 1)
             else Entry(s.phys, fd, k).frame < LOW && t.memMap == s.memMap
    requires IsUser(e) && j < ENTRIES
    ensures EntryOk(t, e, j) && (e != td ==> SameSlot(s, t, e, j))
  {
    var f := Entry(s.phys, fd, k).frame;
    assert EntryOk(s, e, j);
    if both {
      assert EntryOk(s, fd, k) && Names(s.phys, fd, k, f);
      if e != fd || j != k {
        OtherReference(s, fd, k, e, j);
        assert s.phys[0][e].present && Entry(s.phys, e, j).present && Entry(s.phys, e, j).frame == f ==> Names(s.phys, e, j, f);
      }
    }
    if s.phys[0][e].present && Entry(s.phys, e, j).present && Entry(s.phys, e, j).frame >= LOW {
      NamedIsNoTable(s, e, j);
    }
  }

  lemma NamedIsNoTable(s: State, e: nat, j: nat)
    requires Inv(s) && IsUser(e) && j < ENTRIES && s.phys[0][e].present && Entry(s.phys, e, j).present && Entry(s.phys, e, j).frame >= LOW
    ensures NotTable(s.phys, Entry(s.phys, e, j).frame)
  {
    forall d: nat | IsUser(d) && s.phys[0][d].present ensures s.phys[0][d].frame != Entry(s.phys, e, j).frame {
      TablesAreOwn(s, d);
    }
  }

  /** Entry (d, k) now has contents pg on a page of its own; the rest of slot d is as before. */
  ghost predicate OwnPage(s: State, t: State, d: nat, k: nat, pg: Page)
    requires d < ENTRIES && k < ENTRIES
  {
    && t.phys[0][d].present && Entry(t.phys, d, k).present && Entry(t.phys, d, k).writable
    && ViewAt(t, d, k) == Private(pg)
    && forall j: nat | j < ENTRIES && j != k :: ViewAt(t, d, j) == ViewAt(s, d, j)
  }

  /** The contents behind a present entry, kernel memory included. */
  function Behind(s: State, d: nat, k: nat): Page
    requires d < ENTRIES && k < ENTRIES
  {
    s.phys[Entry(s.phys, d, k).frame]
  }

  lemma ReuseKeeps(s: State, d: nat, k: nat)
    requires Inv(s) && IsUser(d) && k < ENTRIES && s.phys[0][d].present && Entry(s.phys, d, k).present
    requires var f := Entry(s.phys, d, k).frame; Managed(f) && s.memMap[f - LOW] == 1
    ensures var t := UnWp(s, d, k).0;
      Keeps(s, t, d) && OwnPage(s, t, d, k, Behind(s, d, k)) && t.held == s.held
  {
    var t := UnWp(s, d, k).0;
    var w := Entry(s.phys, d, k).(writable := true);
    TablesAreOwn(s, d);
    EntryWrite(s.phys, d, k, w);
    forall e: nat, j: nat | IsUser(e) && j < ENTRIES ensures EntryOk(t, e, j) && SameSlot(s, t, e, j) {
      assert EntryOk(s, e, j);
    }
    forall e: nat | IsUser(e) ensures TableOk(t, e) {
      assert TableOk(s, e);
    }
    forall g: Frame | Managed(g) ensures t.memMap[g - LOW] == |Sites(t.phys, g)| + t.held[g - LOW] {
      assert Names(s.phys, d, k, g) == Names(t.phys, d, k, g);
    }
  }

  lemma CopyPageEntry(s: State, d: nat, k: nat, f: Frame, e: nat, j: nat)
    requires Inv(s) && IsUser(d) && k < ENTRIES && s.phys[0][d].present && Entry(s.phys, d, k).present && HeldOnce(s, f)
    requires var g := Entry(s.phys, d, k).frame; g < LOW || (Managed(g) && s.memMap[g - LOW] > 1)
    requires IsUser(e) && j < ENTRIES && (e != d || j != k)
    ensures var t := CopyPage(s, d, k, f); EntryOk(t, e, j) && SameSlot(s, t, e, j)
  {
    var g := Entry(s.phys, d, k).frame;
    HeldIsUnnamed(s, f);
    TablesAreOwn(s, d);
    EntryWrite(s.phys, d, k, Mapped(f));
    assert EntryOk(s, e, j);
    assert !Names(s.phys, e, j, f);
    assert Names(s.phys, d, k, g);
    OtherReference(s, d, k, e, j);
    assert Names(s.phys, e, j, g) == (s.phys[0][e].present && Entry(s.phys, e, j).present && Entry(s.phys, e, j).frame == g);
    if s.phys[0][e].present && Entry(s.phys, e, j).present && Entry(s.phys, e, j).frame >= LOW {
      NamedIsNoTable(s, e, j);
    }
  }

  lemma CopyPageCounted(s: State, d: nat, k: nat, f: Frame)
    requires Inv(s) && IsUser(d) && k < ENTRIES && s.phys[0][d].present && Entry(s.phys, d, k).present && HeldOnce(s, f)
    requires var g := Entry(s.phys, d, k).frame; g < LOW || (Managed(g) && s.memMap[g - LOW] > 1)
    ensures var t := CopyPage(s, d, k, f);
      && Counted(t) && t.phys[0] == s.phys[0] && Entry(t.phys, d, k) == Mapped(f)
      && forall j: nat | j < ENTRIES :: Entry(t.phys, 0, j) == Entry(s.phys, 0, j)
  {
    var t := CopyPage(s, d, k, f);
    var g := Entry(s.phys, d, k).frame;
    HeldIsUnnamed(s, f);
    TablesAreOwn(s, d);
    EntryWrite(s.phys, d, k, Mapped(f));
    var p1 := SetEntry(s.phys, d, k, Mapped(f));
    assert NotTable(p1, f);
    PageWriteKeepsEntries(p1, f, s.phys[g]);
    forall x: Frame | Managed(x) ensures t.memMap[x - LOW] == |Sites(t.phys, x)| + t.held[x - LOW] {
      assert Names(p1, d, k, x) == (x == f);
      assert Names(s.phys, d, k, x) == (x == g);
    }
  }

  lemma CopyPageKeeps(s: State, d: nat, k: nat, f: Frame)
    requires Inv(s) && IsUser(d) && k < ENTRIES && s.phys[0][d].present && Entry(s.phys, d, k).present && HeldOnce(s, f)
    requires var g := Entry(s.phys, d, k).frame; g < LOW || (Managed(g) && s.memMap[g - LOW] > 1)
    ensures var t := CopyPage(s, d, k, f);
      Keeps(s, t, d) && OwnPage(s, t, d, k, Behind(s, d, k)) && t.held == Adjust(s.held, f, -1)
  {
    var t := CopyPage(s, d, k, f);
    var g := Entry(s.phys, d, k).frame;
    CopyPageCounted(s, d, k, f);
    forall e: nat, j: nat | IsUser(e) && j < ENTRIES
      ensures EntryOk(t, e, j) && (e != d || j != k ==> SameSlot(s, t, e, j))
    {
      if e != d || j != k {
        CopyPageEntry(s, d, k, f, e, j);
      }
    }
    forall j: nat | j < ENTRIES && j != k ensures ViewAt(t, d, j) == ViewAt(s, d, j) {
      assert SameSlot(s, t, d, j);
    }
    HeldIsUnnamed(s, f);
    forall e: nat | IsUser(e) ensures TableOk(t, e) {
      assert TableOk(s, e);
      OtherReference(s, d, k, e, ENTRIES);
      assert Names(s.phys, d, k, g) && !Names(s.phys, e, ENTRIES, f);
      assert Names(s.phys, e, ENTRIES, g) == (s.phys[0][e].present && s.phys[0][e].frame == g);
    }
  }

  /** un_wp_page succeeds with a private writable copy, or fails changing nothing. */
  lemma UnWpKeeps(s: State, d: nat, k: nat)
    requires Inv(s) && IsUser(d) && k < ENTRIES && s.phys[0][d].present && Entry(s.phys, d, k).present
    ensures var (t, ok) := UnWp(s, d, k);
      Keeps(s, t, d) && t.held == s.held && (if ok then OwnPage(s, t, d, k, Behind(s, d, k)) else t == s)
  {
    var g := Entry(s.phys, d, k).frame;
    assert EntryOk(s, d, k);
    if Managed(g) && s.memMap[g - LOW] == 1 {
      ReuseKeeps(s, d, k);
    } else {
      var (t, f) := GetFreePage(s);
      if f != 0 {
        TakePageKeeps(s, f);
        assert SameSlot(s, t, d, k) && SameSpace(s, t, d);
        assert Names(s.phys, d, k, g) && (d, k) in Sites(s.phys, g);
        assert g >= LOW ==> s.memMap[g - LOW] > 1;
        CopyPageKeeps(t, d, k, f);
        var u := CopyPage(t, d, k, f);
        forall e: nat | IsUser(e) && e != d ensures SameSpace(s, u, e) {
          SameSpaceTrans(s, t, u, e);
        }
        forall j: nat | j < ENTRIES && j != k ensures ViewAt(u, d, j) == ViewAt(s, d, j) {
          SameSpaceViews(s, t, d, j);
        }
        assert u.held == s.held;
      }
    }
  }

  lemma StoreWordKeeps(s: State, d: nat, k: nat, o: nat, x: Word)
    requires Inv(s) && IsUser(d) && k < ENTRIES && o < ENTRIES
    requires s.phys[0][d].present && Entry(s.phys, d, k).present && Entry(s.phys, d, k).writable
    ensures var t := StoreWord(s, d, k, o, x);
      Keeps(s, t, d) && OwnPage(s, t, d, k, Behind(s, d, k)[o := x]) && t.held == s.held
  {
    var t := StoreWord(s, d, k, o, x);
    var w := Entry(s.phys, d, k);
    assert EntryOk(s, d, k);
    TablesAreOwn(s, d);
    NamedIsNoTable(s, d, k);
    EntryWrite(s.phys, d, k, w.(dirty := true));
    var p1 := SetEntry(s.phys, d, k, w.(dirty := true));
    PageWriteKeepsEntries(p1, w.frame, s.phys[w.frame][o := x]);
    assert Names(s.phys, d, k, w.frame);
    forall e: nat, j: nat | IsUser(e) && j < ENTRIES
      ensures EntryOk(t, e, j) && (e != d || j != k ==> SameSlot(s, t, e, j))
    {
      assert EntryOk(s, e, j);
      if e != d || j != k {
        OtherReference(s, d, k, e, j);
        assert !Names(s.phys, e, j, w.frame);
        if s.phys[0][e].present && Entry(s.phys, e, j).present && Entry(s.phys, e, j).frame >= LOW {
          NamedIsNoTable(s, e, j);
        }
      }
    }
    forall j: nat | j < ENTRIES && j != k ensures ViewAt(t, d, j) == ViewAt(s, d, j) {
      assert SameSlot(s, t, d, j);
    }
    forall e: nat | IsUser(e) ensures TableOk(t, e) {
      assert TableOk(s, e);
    }
    assert forall j: nat | j < KERNEL_PAGES :: Entry(t.phys, 0, j) == Entry(s.phys, 0, j);
    forall g: Frame | Managed(g) ensures t.memMap[g - LOW] == |Sites(t.phys, g)| + t.held[g - LOW] {
      assert Names(s.phys, d, k, g) == Names(p1, d, k, g);
    }
  }

  lemma ReleaseKeeps(s: State, f: Frame)
    requires Inv(s) && Managed(f) && f < s.high && s.held[f - LOW] > 0
    ensures Keeps(s, Release(s, f), ENTRIES) && Release(s, f).phys == s.phys
  {
    var t := Release(s, f);
    forall e: nat, j: nat | IsUser(e) && j < ENTRIES ensures EntryOk(t, e, j) && SameSlot(s, t, e, j) {
      assert EntryOk(s, e, j);
      assert s.phys[0][e].present && Entry(s.phys, e, j).present && Entry(s.phys, e, j).frame == f ==> (e, j) in Sites(s.phys, f);
    }
    forall e: nat | IsUser(e) ensures TableOk(t, e) {
      assert TableOk(s, e);
      assert s.phys[0][e].present && s.phys[0][e].frame == f ==> (e, ENTRIES) in Sites(s.phys, f);
    }
  }

  /** Writing a page only the kernel holds (bread_page, copying a task structure) is invisible. */
  lemma FillKeeps(s: State, f: Frame, pg: Page)
    requires Inv(s) && HeldOnce(s, f)
    ensures Keeps(s, s.(phys := s.phys[f := pg]), ENTRIES)
    ensures s.phys[f := pg][0] == s.phys[0]
    ensures forall d: nat, k: nat | IsUser(d) && k < ENTRIES && s.phys[0][d].present :: Entry(s.phys[f := pg], d, k) == Entry(s.phys, d, k)
  {
    var t := s.(phys := s.phys[f := pg]);
    HeldIsUnnamed(s, f);
    PageWriteKeepsEntries(s.phys, f, pg);
    forall e: nat, j: nat | IsUser(e) && j < ENTRIES ensures EntryOk(t, e, j) && SameSlot(s, t, e, j) {
      assert EntryOk(s, e, j);
      assert !Names(s.phys, e, j, f);
    }
    forall e: nat | IsUser(e) ensures TableOk(t, e) {
      assert TableOk(s, e);
    }
  }
}
