/** What mm/memory.c and fork promise a process: its memory is its own. Single
    calls first, then every run. */
module CopyOnWrite {
  import opened PhysicalMemory
  import opened Paging

  /** A page the kernel holds is put into an empty place of slot d. */
  lemma PutPageKeeps(s: State, f: Frame, d: nat, k: nat)
    requires Inv(s) && IsUser(d) && k < ENTRIES && ViewAt(s, d, k) == Absent && HeldOnce(s, f)
    ensures var (t, ok) := PutPage(s, f, d, k);
      Keeps(s, t, d) && (if ok then OwnPage(s, t, d, k, s.phys[f]) && t.held == Adjust(s.held, f, -1) else t == s)
  {
    if s.phys[0][d].present {
      MapHeldKeeps(s, d, k, f);
      var t := MapHeld(s, d, k, f);
      forall j: nat | j < ENTRIES && j != k ensures ViewAt(t, d, j) == ViewAt(s, d, j) {
        assert SameSlot(s, t, d, j);
      }
    } else {
      var (t, g) := GetFreePage(s);
      if g != 0 {
        TakePageKeeps(s, g);
        assert g != f;
        InstallTableKeeps(t, d, g);
        var u := InstallTable(t, d, g);
        assert u.held == s.held;
        MapHeldKeeps(u, d, k, f);
        var v := MapHeld(u, d, k, f);
        forall e: nat | IsUser(e) && e != d ensures SameSpace(s, v, e) {
          SameSpaceTrans(s, t, u, e);
          SameSpaceTrans(s, u, v, e);
        }
        forall j: nat | j < ENTRIES && j != k ensures ViewAt(v, d, j) == ViewAt(s, d, j) {
          assert SameSlot(u, v, d, j);
        }
      }
    }
  }

  lemma GetEmptyPageKeeps(s: State, d: nat, k: nat)
    requires Inv(s) && IsUser(d) && k < ENTRIES && ViewAt(s, d, k) == Absent
    ensures var (t, ok) := GetEmptyPage(s, d, k);
      Keeps(s, t, d) && t.held == s.held &&
      if ok then OwnPage(s, t, d, k, ZeroPage()) else forall j: nat | j < ENTRIES :: ViewAt(t, d, j) == ViewAt(s, d, j)
  {
    var (t, f) := GetFreePage(s);
    if f != 0 {
      PageTaken(s, f, d, k);
      PutPageKeeps(t, f, d, k);
      var (u, ok) := PutPage(t, f, d, k);
      if ok {
        forall e: nat | IsUser(e) && e != d ensures SameSpace(s, u, e) {
          SameSpaceTrans(s, t, u, e);
        }
        assert u.held == s.held;
      } else {
        PageGivenBack(s, t, f, d);
      }
    }
  }

  /** A page just taken is the kernel's alone, and nobody reads anything new. */
  lemma PageTaken(s: State, f: Frame, d: nat, k: nat)
    requires Inv(s) && Managed(f) && s.memMap[f - LOW] == 0 && IsUser(d) && k < ENTRIES
    ensures var t := TakePage(s, f);
      && Inv(t) && t.high == s.high && KernelSame(s, t) && HeldOnce(t, f) && t.phys[f] == ZeroPage()
      && t.held == Adjust(s.held, f, 1)
      && (forall e: nat | IsUser(e) :: SameSpace(s, t, e))
      && (forall j: nat | j < ENTRIES :: ViewAt(t, d, j) == ViewAt(s, d, j))
  {
    var t := TakePage(s, f);
    TakePageKeeps(s, f);
    forall j: nat | j < ENTRIES ensures ViewAt(t, d, j) == ViewAt(s, d, j) {
      SameSpaceViews(s, t, d, j);
    }
  }

  lemma PageGivenBack(s: State, t: State, f: Frame, d: nat)
    requires Inv(s) && Inv(t) && t.high == s.high && KernelSame(s, t) && HeldOnce(t, f) && t.held == Adjust(s.held, f, 1) && IsUser(d)
    requires forall e: nat | IsUser(e) :: SameSpace(s, t, e)
    ensures var v := Release(t, f);
      Keeps(s, v, d) && v.held == s.held && forall j: nat | j < ENTRIES :: ViewAt(v, d, j) == ViewAt(s, d, j)
  {
    var v := Release(t, f);
    ReleaseKeeps(t, f);
    forall e: nat | IsUser(e) ensures SameSpace(s, v, e) {
      SameSpaceTrans(s, t, v, e);
    }
    forall j: nat | j < ENTRIES ensures ViewAt(v, d, j) == ViewAt(s, d, j) {
      SameSpaceViews(s, v, d, j);
    }
  }

  /** What a page holds when it is next touched: itself, the kernel page behind it, or zeroes. */
  function Before(s: State, d: nat, k: nat): Page
    requires d < ENTRIES && k < ENTRIES
  {
    if s.phys[0][d].present && Entry(s.phys, d, k).present then Behind(s, d, k) else ZeroPage()
  }

  /** Isolation of one store, whatever fault it takes: the page written reads back as
      before except for the word stored, every other page of every address space reads
      exactly as before, and a store that fails for lack of memory changes no page. */
  lemma StoreIsolated(s: State, d: nat, k: nat, o: nat, x: Word)
    requires Inv(s) && IsUser(d) && k < ENTRIES && o < ENTRIES
    ensures var (t, ok) := Store(s, d, k, o, x);
      && Inv(t) && t.held == s.held
      && (ok ==> ViewAt(t, d, k) == Private(Before(s, d, k)[o := x]))
      && (!ok ==> ViewAt(t, d, k) == ViewAt(s, d, k))
      && (forall e: nat, j: nat | IsUser(e) && j < ENTRIES && (e != d || j != k) :: ViewAt(t, e, j) == ViewAt(s, e, j))
      && (forall e: nat | IsUser(e) && e != d :: SameSpace(s, t, e))
  {
    var (t, ok) := if s.phys[0][d].present && Entry(s.phys, d, k).present
                   then WriteVerify(s, d, k) else GetEmptyPage(s, d, k);
    if s.phys[0][d].present && Entry(s.phys, d, k).present {
      if Entry(s.phys, d, k).writable {
        assert EntryOk(s, d, k);
      } else {
        UnWpKeeps(s, d, k);
      }
    } else {
      GetEmptyPageKeeps(s, d, k);
    }
    assert Inv(t) && t.held == s.held;
    assert ok ==> ViewAt(t, d, k) == Private(Before(s, d, k));
    var u := if ok then StoreWord(t, d, k, o, x) else t;
    if ok {
      StoreWordKeeps(t, d, k, o, x);
    }
    forall e: nat | IsUser(e) && e != d ensures SameSpace(s, u, e) {
      SameSpaceTrans(s, t, u, e);
    }
    forall e: nat, j: nat | IsUser(e) && j < ENTRIES && (e != d || j != k) ensures ViewAt(u, e, j) == ViewAt(s, e, j) {
      if e != d {
        SameSpaceViews(s, u, e, j);
      }
    }
  }

  // ---- fork -------------------------------------------------------------------

  /** The child's page k is the parent's page k: absent in both, or the same frame. */
  ghost predicate CopiedPage(s: State, t: State, fd: nat, td: nat, k: nat)
    requires fd < ENTRIES && td < ENTRIES && k < ENTRIES
  {
    var v, w := Entry(s.phys, fd, k), Entry(t.phys, td, k);
    w.present == v.present && (v.present ==> w.frame == v.frame)
  }

  lemma {:induction false} CopyEntriesKeeps(s: State, fd: nat, td: nat, k: nat, nr: nat)
    requires Inv(s) && k <= nr <= ENTRIES && IsUser(td) && s.phys[0][td].present && fd != td
    requires (IsUser(fd) && s.phys[0][fd].present) || (fd == 0 && nr <= KERNEL_PAGES)
    requires forall j: nat | k <= j < ENTRIES :: !Entry(s.phys, td, j).present
    ensures var t := CopyEntries(s, fd, td, k, nr);
      && Keeps(s, t, td) && t.held == s.held && t.phys[0] == s.phys[0]
      && (forall j: nat | j < k :: Entry(t.phys, td, j) == Entry(s.phys, td, j))
      && (forall j: nat | k <= j < nr :: CopiedPage(s, t, fd, td, j))
      && (forall j: nat | nr <= j < ENTRIES :: !Entry(t.phys, td, j).present)
    decreases nr - k
  {
    if k < nr {
      var u := ShareEntry(s, fd, td, k);
      var t := CopyEntries(s, fd, td, k, nr);
      ShareEntryKeeps(s, fd, td, k);
      CopyEntriesKeeps(u, fd, td, k + 1, nr);
      forall e: nat | IsUser(e) && e != td ensures SameSpace(s, t, e) {
        SameSpaceTrans(s, u, t, e);
      }
      forall j: nat | k <= j < nr ensures CopiedPage(s, t, fd, td, j) {
        if j > k {
          assert CopiedPage(u, t, fd, td, j);
          assert fd != 0 ==> SameSlot(s, u, fd, j);
        }
      }
    }
  }

  /** Slots [d, d + n) hold no tables. */
  ghost predicate Empty(s: State, d: nat, n: nat)
    requires d + n <= ENTRIES
  {
    forall e: nat | d <= e < d + n :: !s.phys[0][e].present
  }

  /** Every user slot outside [d, d + n) is as before, and so are the kernel's holdings. */
  ghost predicate KeepsOutside(s: State, t: State, d: nat, n: nat) {
    Inv(t) && t.held == s.held && t.high == s.high && KernelSame(s, t) &&
    forall e: nat | IsUser(e) && !(d <= e < d + n) :: SameSpace(s, t, e)
  }

  lemma OutsideTrans(s: State, t: State, u: State, d: nat, n: nat)
    requires KeepsOutside(s, t, d, n) && KeepsOutside(t, u, d, n)
    ensures KeepsOutside(s, u, d, n)
  {
    forall e: nat | IsUser(e) && !(d <= e < d + n) ensures SameSpace(s, u, e) {
      SameSpaceTrans(s, t, u, e);
    }
  }

  /** The slots a fork copies from and to: two tasks' ranges, or task 0's one slot. */
  ghost predicate ForkRange(fd: nat, td: nat, n: nat) {
    FIRST_USER <= td && td + n <= ENTRIES && fd + n <= ENTRIES &&
    (n == 0 || (fd == 0 && n == 1) || (FIRST_USER <= fd && (fd + n <= td || td + n <= fd)))
  }

  ghost function Copied(fd: nat): nat {
    if fd == 0 then KERNEL_PAGES else ENTRIES
  }

  /** Child slot e is a copy of slot p of the parent: nr entries, the rest empty. */
  ghost predicate CopiedSlot(s: State, t: State, p: nat, e: nat, nr: nat)
    requires e < ENTRIES && p < ENTRIES && nr <= ENTRIES
  {
    && t.phys[0][e].present == s.phys[0][p].present
    && (t.phys[0][e].present ==>
      (forall k: nat | k < nr :: CopiedPage(s, t, p, e, k)) &&
      forall k: nat | nr <= k < ENTRIES :: !Entry(t.phys, e, k).present)
  }

  /** All n child slots are copies. */
  ghost predicate CopiedRange(s: State, t: State, fd: nat, td: nat, n: nat, nr: nat)
    requires fd + n <= ENTRIES && td + n <= ENTRIES && nr <= ENTRIES
  {
    forall e: nat, p: nat | td <= e < td + n && p == e - td + fd :: CopiedSlot(s, t, p, e, nr)
  }

  /** A copy stays one while others change: the parent's slot did not change before it,
      nor the child's after it. */
  lemma CopiedSlotKept(s: State, t: State, u: State, v: State, p: nat, e: nat, nr: nat)
    requires e < ENTRIES && p < ENTRIES && nr <= ENTRIES && CopiedSlot(t, u, p, e, nr) && SameSpace(u, v, e)
    requires (p == 0 && nr <= KERNEL_PAGES && KernelSame(s, t)) || SameSpace(s, t, p)
    ensures CopiedSlot(s, v, p, e, nr)
  {
    forall k: nat | k < nr && v.phys[0][e].present ensures CopiedPage(s, v, p, e, k) {
      assert CopiedPage(t, u, p, e, k) && SameSlot(u, v, e, k);
      assert p != 0 || nr > KERNEL_PAGES || !KernelSame(s, t) ==> SameSlot(s, t, p, k);
    }
    forall k: nat | nr <= k < ENTRIES && v.phys[0][e].present ensures !Entry(v.phys, e, k).present {
      assert SameSlot(u, v, e, k);
    }
  }

  /** One round of the outer loop of copy_page_tables. */
  lemma CopySlotKeeps(s: State, fd: nat, td: nat, f: Frame)
    requires Inv(s) && ForkRange(fd, td, 1) && s.phys[0][fd].present && !s.phys[0][td].present
    requires GetFreePage(s).1 == f && f != 0
    ensures var v := CopyEntries(InstallTable(GetFreePage(s).0, td, f), fd, td, 0, Copied(fd));
      KeepsOutside(s, v, td, 1) && CopiedSlot(s, v, fd, td, Copied(fd))
  {
    var t := GetFreePage(s).0;
    TakePageKeeps(s, f);
    var u := InstallTable(t, td, f);
    InstallTableKeeps(t, td, f);
    assert u.held == s.held;
    CopyEntriesKeeps(u, fd, td, 0, Copied(fd));
    var v := CopyEntries(u, fd, td, 0, Copied(fd));
    forall e: nat | IsUser(e) && e != td ensures SameSpace(s, u, e) && SameSpace(s, v, e) {
      SameSpaceTrans(s, t, u, e);
      SameSpaceTrans(s, u, v, e);
    }
    assert CopiedSlot(u, v, fd, td, Copied(fd));
    CopiedSlotKept(s, u, v, v, fd, td, Copied(fd));
  }

  lemma {:induction false} CopyTablesKeeps(s: State, fd: nat, td: nat, n: nat, nr: nat)
    requires Inv(s) && ForkRange(fd, td, n) && Empty(s, td, n) && (n > 0 ==> nr == Copied(fd)) && nr <= ENTRIES
    ensures var (t, ok) := CopyTables(s, fd, td, n, nr);
      KeepsOutside(s, t, td, n) && (ok ==> CopiedRange(s, t, fd, td, n, nr))
    decreases n, 1
  {
    if n > 0 {
      var f := GetFreePage(s).1;
      if !s.phys[0][fd].present {
        CopyRest(s, s, fd, td, n, nr);
      } else if f != 0 {
        CopySlotKeeps(s, fd, td, f);
        CopyRest(s, CopyEntries(InstallTable(GetFreePage(s).0, td, f), fd, td, 0, nr), fd, td, n, nr);
      }
    }
  }

  /** The remaining rounds, once slot td is done. */
  lemma CopyRest(s: State, v: State, fd: nat, td: nat, n: nat, nr: nat)
    requires Inv(s) && n > 0 && ForkRange(fd, td, n) && Empty(s, td, n) && nr == Copied(fd)
    requires KeepsOutside(s, v, td, 1) && CopiedSlot(s, v, fd, td, nr)
    ensures var (t, ok) := CopyTables(v, fd + 1, td + 1, n - 1, nr);
      KeepsOutside(s, t, td, n) && (ok ==> CopiedRange(s, t, fd, td, n, nr))
    decreases n, 0
  {
    forall e: nat | td + 1 <= e < td + n ensures !v.phys[0][e].present {
      assert SameSpace(s, v, e);
    }
    CopyTablesKeeps(v, fd + 1, td + 1, n - 1, nr);
    var (t, ok) := CopyTables(v, fd + 1, td + 1, n - 1, nr);
    forall e: nat | IsUser(e) && !(td <= e < td + n) ensures SameSpace(s, t, e) {
      SameSpaceTrans(s, v, t, e);
    }
    forall e: nat, p: nat | ok && td <= e < td + n && p == e - td + fd ensures CopiedSlot(s, t, p, e, nr) {
      if e == td {
        CopiedSlotKept(s, s, v, t, p, e, nr);
      } else {
        assert SameSpace(t, t, e);
        CopiedSlotKept(s, v, t, t, p, e, nr);
      }
    }
  }

  lemma {:induction false} ClearTableKeeps(s: State, d: nat, k: nat)
    requires Inv(s) && IsUser(d) && s.phys[0][d].present && k <= ENTRIES
    requires forall j: nat | j < k :: !Entry(s.phys, d, j).present
    ensures var t := ClearTable(s, d, k);
      KeepsOutside(s, t, d, 1) && t.phys[0] == s.phys[0] && forall j: nat | j < ENTRIES :: !Entry(t.phys, d, j).present
    decreases ENTRIES - k
  {
    if k < ENTRIES {
      ClearEntryKeeps(s, d, k);
      var u := ClearEntry(s, d, k);
      ClearTableKeeps(u, d, k + 1);
      OutsideTrans(s, u, ClearTable(s, d, k), d, 1);
    }
  }

  function FreeSlot(s: State, d: nat): State
    requires d < ENTRIES
  {
    if s.phys[0][d].present then DropTable(ClearTable(s, d, 0), d) else s
  }

  lemma FreeSlotKeeps(s: State, d: nat)
    requires Inv(s) && IsUser(d)
    ensures KeepsOutside(s, FreeSlot(s, d), d, 1) && !FreeSlot(s, d).phys[0][d].present
  {
    if s.phys[0][d].present {
      var u := ClearTable(s, d, 0);
      ClearTableKeeps(s, d, 0);
      DropTableKeeps(u, d);
      assert KeepsOutside(u, FreeSlot(s, d), d, 1);
      OutsideTrans(s, u, FreeSlot(s, d), d, 1);
    }
  }

  lemma OutsideWiden(s: State, t: State, d: nat, n: nat, e: nat, m: nat)
    requires KeepsOutside(s, t, d, n) && e <= d && d + n <= e + m
    ensures KeepsOutside(s, t, e, m)
  {
  }

  /** free_page_tables empties exactly its slots; with the counts right, free_page never panics. */
  lemma {:induction false} FreeTablesKeeps(s: State, d: nat, n: nat)
    requires Inv(s) && FIRST_USER <= d && d + n <= ENTRIES
    ensures var t := FreeTables(s, d, n); KeepsOutside(s, t, d, n) && Empty(t, d, n)
    decreases n
  {
    if n > 0 {
      var v := FreeSlot(s, d);
      FreeSlotKeeps(s, d);
      FreeTablesKeeps(v, d + 1, n - 1);
      FreeTablesJoin(s, v, FreeTables(v, d + 1, n - 1), d, n);
    }
  }

  lemma FreeTablesJoin(s: State, v: State, t: State, d: nat, n: nat)
    requires n > 0 && IsUser(d) && d + n <= ENTRIES
    requires KeepsOutside(s, v, d, 1) && !v.phys[0][d].present && KeepsOutside(v, t, d + 1, n - 1) && Empty(t, d + 1, n - 1)
    ensures KeepsOutside(s, t, d, n) && Empty(t, d, n)
  {
    assert SameSpace(v, t, d);
    OutsideWiden(s, v, d, 1, d, n);
    OutsideWiden(v, t, d + 1, n - 1, d, n);
    OutsideTrans(s, v, t, d, n);
  }

  /** mem_map is determined by what the slots name and what the kernel holds. */
  lemma SameCounts(s: State, t: State)
    requires Inv(s) && Inv(t) && s.held == t.held
    requires forall e: nat | IsUser(e) :: SameSpace(s, t, e)
    ensures s.memMap == t.memMap
  {
    forall i: nat | i < PAGING_PAGES ensures s.memMap[i] == t.memMap[i] {
      var f: Frame := LOW + i;
      assert Managed(f) && f - LOW == i;
      forall d: nat, k: nat | IsUser(d) && k <= ENTRIES ensures Names(s.phys, d, k, f) == Names(t.phys, d, k, f) {
        assert SameSpace(s, t, d);
        if k < ENTRIES {
          assert SameSlot(s, t, d, k);
        }
      }
      SitesSame(s.phys, t.phys, f);
    }
  }

  /** fork gives the child what the parent reads, page for page, and changes what nobody
      reads, the parent included. */
  lemma ForkCopies(s: State, fd: nat, td: nat, n: nat)
    requires Inv(s) && ForkRange(fd, td, n) && Empty(s, td, n)
    requires Fork(s, fd, td, n).1
    ensures var t := Fork(s, fd, td, n).0;
      && KeepsOutside(s, t, td, n)
      && (forall e: nat, p: nat, k: nat | td <= e < td + n && p == e - td + fd && k < ENTRIES ::
            ViewAt(t, e, k) == if k < Copied(fd) then ViewAt(s, p, k) else Absent)
      && (forall e: nat, j: nat | IsUser(e) && !(td <= e < td + n) && j < ENTRIES :: ViewAt(t, e, j) == ViewAt(s, e, j))
  {
    CopyTablesKeeps(s, fd, td, n, Copied(fd));
    var t := Fork(s, fd, td, n).0;
    forall e: nat, p: nat, k: nat | td <= e < td + n && p == e - td + fd && k < ENTRIES
      ensures ViewAt(t, e, k) == if k < Copied(fd) then ViewAt(s, p, k) else Absent
    {
      assert CopiedSlot(s, t, p, e, Copied(fd));
      if k < Copied(fd) && s.phys[0][p].present {
        assert CopiedPage(s, t, p, e, k);
        if p != 0 {
          assert SameSpace(s, t, p);
          assert SameSlot(s, t, p, k);
        }
      }
    }
    forall e: nat, j: nat | IsUser(e) && !(td <= e < td + n) && j < ENTRIES ensures ViewAt(t, e, j) == ViewAt(s, e, j) {
      SameSpaceViews(s, t, e, j);
    }
  }

  /** After a fork no counted page the two share can be written by either. */
  lemma ForkProtects(s: State, d: nat, k: nat, e: nat, j: nat)
    requires Inv(s) && IsUser(d) && IsUser(e) && k < ENTRIES && j < ENTRIES && (d != e || k != j)
    requires s.phys[0][d].present && Entry(s.phys, d, k).present && s.phys[0][e].present && Entry(s.phys, e, j).present
    requires Entry(s.phys, d, k).frame == Entry(s.phys, e, j).frame
    ensures !Entry(s.phys, d, k).writable && !Entry(s.phys, e, j).writable
  {
    var f := Entry(s.phys, d, k).frame;
    assert EntryOk(s, d, k) && EntryOk(s, e, j);
    assert Names(s.phys, d, k, f) && Names(s.phys, e, j, f);
    OtherReference(s, d, k, e, j);
  }

  /** A fork that runs out of memory, at whatever slot, is undone exactly: every count is
      what it was, the child's range is empty, and every page of every process reads the same. */
  lemma ForkRollback(s: State, fd: nat, td: nat, n: nat)
    requires Inv(s) && ForkRange(fd, td, n) && Empty(s, td, n)
    requires !Fork(s, fd, td, n).1
    ensures var t := Fork(s, fd, td, n).0;
      && KeepsOutside(s, t, td, n) && Empty(t, td, n) && t.memMap == s.memMap && t.held == s.held
      && forall e: nat, j: nat | IsUser(e) && j < ENTRIES :: ViewAt(t, e, j) == ViewAt(s, e, j)
  {
    CopyTablesKeeps(s, fd, td, n, Copied(fd));
    var u := CopyTables(s, fd, td, n, Copied(fd)).0;
    FreeTablesKeeps(u, td, n);
    var t := FreeTables(u, td, n);
    OutsideTrans(s, u, t, td, n);
    forall e: nat | IsUser(e) ensures SameSpace(s, t, e) {
    }
    SameCounts(s, t);
    forall e: nat, j: nat | IsUser(e) && j < ENTRIES ensures ViewAt(t, e, j) == ViewAt(s, e, j) {
      SameSpaceViews(s, t, e, j);
    }
  }

  // ---- every run --------------------------------------------------------------

  /** try_to_share maps the other task's page here, readable by both, and disturbs nobody. */
  lemma ShareIsolated(s: State, fd: nat, td: nat, k: nat)
    requires Inv(s) && IsUser(fd) && IsUser(td) && fd != td && k < ENTRIES && ViewAt(s, td, k) == Absent
    ensures var (t, r) := TryToShare(s, fd, td, k);
      && Keeps(s, t, td) && t.held == s.held
      && ViewAt(t, td, k) == (if r == Shared then ViewAt(s, fd, k) else Absent)
      && forall j: nat | j < ENTRIES && j != k :: ViewAt(t, td, j) == ViewAt(s, td, j)
  {
    var w := Entry(s.phys, fd, k);
    var r := TryToShare(s, fd, td, k).1;
    if r != NotShared {
      var (t, g) := if s.phys[0][td].present then (s, 0) else GetFreePage(s);
      var u := if s.phys[0][td].present || g == 0 then t else InstallTable(t, td, g);
      if !s.phys[0][td].present && g != 0 {
        TakePageKeeps(s, g);
        InstallTableKeeps(t, td, g);
        assert u.held == s.held;
        forall e: nat | IsUser(e) && e != td ensures SameSpace(s, u, e) {
          SameSpaceTrans(s, t, u, e);
        }
      }
      assert Keeps(s, u, td);
      assert SameSlot(s, u, fd, k) && SameSpace(s, u, fd);
      if r == Shared {
        ShareEntryKeeps(u, fd, td, k);
        var v := ShareEntry(u, fd, td, k);
        forall e: nat | IsUser(e) && e != td ensures SameSpace(s, v, e) {
          SameSpaceTrans(s, u, v, e);
        }
        assert SameSlot(u, v, fd, k);
        forall j: nat | j < ENTRIES && j != k ensures ViewAt(v, td, j) == ViewAt(s, td, j) {
          ShareEntryOthers(u, fd, td, k, j);
        }
      }
    }
  }

  lemma ShareEntryOthers(s: State, fd: nat, td: nat, k: nat, j: nat)
    requires Inv(s) && IsUser(fd) && IsUser(td) && fd != td && k < ENTRIES && j < ENTRIES && j != k
    requires s.phys[0][fd].present && s.phys[0][td].present && !Entry(s.phys, td, k).present
    requires Entry(s.phys, fd, k).present && Entry(s.phys, fd, k).frame >= LOW
    ensures ViewAt(ShareEntry(s, fd, td, k), td, j) == ViewAt(s, td, j)
  {
    ShareCounted(s, fd, td, k);
    if Entry(s.phys, td, j).present && Entry(s.phys, td, j).frame >= LOW {
      NamedIsNoTable(s, td, j);
    }
  }

  /** The atomic steps of the kernel on page tables. */
  datatype Step =
    | DoFork(fd: nat, td: nat, n: nat)             // copy_mem, with its rollback
    | DoFree(d: nat, n: nat)                       // free_page_tables: exit, exec
    | DoStore(d: nat, k: nat, o: nat, x: Word)     // a user store and the fault it takes
    | DoEmpty(d: nat, k: nat)                      // get_empty_page
    | DoVerify(d: nat, k: nat)                     // write_verify
    | DoShare(fd: nat, td: nat, k: nat)            // try_to_share
    | DoAlloc                                      // get_free_page into a kernel variable
    | DoRelease(f: Frame)                          // free_page of such a page
    | DoFill(f: Frame, pg: Page)                   // writing such a page, e.g. bread_page
    | DoPut(f: Frame, d: nat, k: nat)              // put_page of such a page

  /** What the callers of mm/memory.c guarantee: a task's own slots, an address that
      faulted because nothing was there, a page the caller holds. */
  ghost predicate Enabled(s: State, step: Step) {
    match step
    case DoFork(fd, td, n) => ForkRange(fd, td, n) && Empty(s, td, n)
    case DoFree(d, n) => FIRST_USER <= d && d + n <= ENTRIES
    case DoStore(d, k, o, x) => IsUser(d) && k < ENTRIES && o < ENTRIES
    case DoEmpty(d, k) => IsUser(d) && k < ENTRIES && ViewAt(s, d, k) == Absent
    case DoVerify(d, k) => IsUser(d) && k < ENTRIES
    case DoShare(fd, td, k) => IsUser(fd) && IsUser(td) && fd != td && k < ENTRIES && ViewAt(s, td, k) == Absent
    case DoAlloc => true
    case DoRelease(f) => Managed(f) && f < s.high && s.held[f - LOW] > 0
    case DoFill(f, pg) => HeldOnce(s, f)
    case DoPut(f, d, k) => IsUser(d) && k < ENTRIES && ViewAt(s, d, k) == Absent && HeldOnce(s, f)
  }

  /** The slots whose pages a step may change for their owner. */
  predicate Targets(step: Step, d: nat) {
    match step
    case DoFork(_, td, n) => td <= d < td + n
    case DoFree(e, n) => e <= d < e + n
    case DoStore(e, _, _, _) => d == e
    case DoEmpty(e, _) => d == e
    case DoVerify(e, _) => d == e
    case DoShare(_, td, _) => d == td
    case DoPut(_, e, _) => d == e
    case _ => false
  }

  ghost function Apply(s: State, step: Step): State
    requires Enabled(s, step)
  {
    match step
    case DoFork(fd, td, n) => Fork(s, fd, td, n).0
    case DoFree(d, n) => FreeTables(s, d, n)
    case DoStore(d, k, o, x) => Store(s, d, k, o, x).0
    case DoEmpty(d, k) => GetEmptyPage(s, d, k).0
    case DoVerify(d, k) => WriteVerify(s, d, k).0
    case DoShare(fd, td, k) => TryToShare(s, fd, td, k).0
    case DoAlloc => GetFreePage(s).0
    case DoRelease(f) => Release(s, f)
    case DoFill(f, pg) => s.(phys := s.phys[f := pg])
    case DoPut(f, d, k) => PutPage(s, f, d, k).0
  }

  lemma StepKeeps(s: State, step: Step)
    requires Inv(s) && Enabled(s, step)
    ensures Inv(Apply(s, step))
    ensures forall d: nat | IsUser(d) && !Targets(step, d) :: SameSpace(s, Apply(s, step), d)
  {
    match step
    case DoFork(fd, td, n) =>
      if Fork(s, fd, td, n).1 { ForkCopies(s, fd, td, n); } else { ForkRollback(s, fd, td, n); }
    case DoFree(d, n) => FreeTablesKeeps(s, d, n);
    case DoStore(d, k, o, x) => StoreIsolated(s, d, k, o, x);
    case DoEmpty(d, k) => GetEmptyPageKeeps(s, d, k);
    case DoVerify(d, k) =>
      if s.phys[0][d].present && Entry(s.phys, d, k).present && !Entry(s.phys, d, k).writable { UnWpKeeps(s, d, k); }
    case DoShare(fd, td, k) => ShareIsolated(s, fd, td, k);
    case DoAlloc => if GetFreePage(s).1 != 0 { TakePageKeeps(s, GetFreePage(s).1); }
    case DoRelease(f) => ReleaseKeeps(s, f);
    case DoFill(f, pg) => FillKeeps(s, f, pg);
    case DoPut(f, d, k) => PutPageKeeps(s, f, d, k);
  }

  ghost predicate RunFrom(s: State, steps: seq<Step>)
    decreases |steps|
  {
    steps == [] || (Enabled(s, steps[0]) && RunFrom(Apply(s, steps[0]), steps[1..]))
  }

  ghost function Run(s: State, steps: seq<Step>): State
    requires RunFrom(s, steps)
    decreases |steps|
  {
    if steps == [] then s else Run(Apply(s, steps[0]), steps[1..])
  }

  /** Every run: mem_map stays exact, free_page never panics, and an address space
      that no step belongs to keeps every page. */
  lemma {:induction false} RunIsolated(s: State, steps: seq<Step>)
    requires Inv(s) && RunFrom(s, steps)
    ensures Inv(Run(s, steps))
    ensures forall d: nat | IsUser(d) && (forall i | 0 <= i < |steps| :: !Targets(steps[i], d)) :: SameSpace(s, Run(s, steps), d)
    decreases |steps|
  {
    if steps != [] {
      var t := Apply(s, steps[0]);
      StepKeeps(s, steps[0]);
      RunIsolated(t, steps[1..]);
      forall d: nat | IsUser(d) && (forall i | 0 <= i < |steps| :: !Targets(steps[i], d)) ensures SameSpace(s, Run(s, steps), d) {
        forall i | 0 <= i < |steps[1..]| ensures !Targets(steps[1..][i], d) {
          assert steps[1..][i] == steps[i + 1];
        }
        assert !Targets(steps[0], d);
        SameSpaceTrans(s, t, Run(t, steps[1..]), d);
      }
    }
  }

  /** The pages a step may change for their owner: its page alone, or with fork and free
      all pages of their slots. */
  predicate Touches(step: Step, d: nat, k: nat) {
    match step
    case DoStore(e, j, _, _) => d == e && k == j
    case DoEmpty(e, j) => d == e && k == j
    case DoVerify(e, j) => d == e && k == j
    case DoShare(_, td, j) => d == td && k == j
    case DoPut(_, e, j) => d == e && k == j
    case _ => Targets(step, d)
  }

  lemma StepKeepsView(s: State, step: Step, e: nat, k: nat)
    requires Inv(s) && Enabled(s, step) && IsUser(e) && k < ENTRIES && !Touches(step, e, k)
    ensures ViewAt(Apply(s, step), e, k) == ViewAt(s, e, k)
  {
    StepKeeps(s, step);
    if !Targets(step, e) {
      SameSpaceViews(s, Apply(s, step), e, k);
    } else {
      match step
      case DoStore(d, j, o, x) => StoreIsolated(s, d, j, o, x);
      case DoEmpty(d, j) => GetEmptyPageKeeps(s, d, j);
      case DoVerify(d, j) =>
        if s.phys[0][d].present && Entry(s.phys, d, j).present && !Entry(s.phys, d, j).writable { UnWpKeeps(s, d, j); }
      case DoShare(fd, td, j) => ShareIsolated(s, fd, td, j);
      case DoPut(f, d, j) => PutPageKeeps(s, f, d, j);
      case _ =>
    }
  }

  /** Over any run a page that no step is at reads the same, whatever happens to its neighbours. */
  lemma {:induction false} RunKeepsView(s: State, steps: seq<Step>, e: nat, k: nat)
    requires Inv(s) && RunFrom(s, steps) && IsUser(e) && k < ENTRIES
    requires forall i | 0 <= i < |steps| :: !Touches(steps[i], e, k)
    ensures ViewAt(Run(s, steps), e, k) == ViewAt(s, e, k)
    decreases |steps|
  {
    if steps != [] {
      StepKeeps(s, steps[0]);
      StepKeepsView(s, steps[0], e, k);
      RunKeepsView(Apply(s, steps[0]), steps[1..], e, k);
    }
  }

  /** fork is a snapshot: whatever the parent and everyone else do next, in any order, a
      child page that no later step is at still reads what the parent read when it forked. */
  lemma ForkIsSnapshot(s: State, t: State, fd: nat, td: nat, n: nat, steps: seq<Step>, p: nat, e: nat, k: nat)
    requires Inv(s) && ForkRange(fd, td, n) && Empty(s, td, n) && Fork(s, fd, td, n) == (t, true)
    requires RunFrom(t, steps)
    requires td <= e < td + n && p == e - td + fd && k < ENTRIES && forall i | 0 <= i < |steps| :: !Touches(steps[i], e, k)
    ensures ViewAt(Run(t, steps), e, k) == if k < Copied(fd) then ViewAt(s, p, k) else Absent
  {
    ForkCopies(s, fd, td, n);
    RunKeepsView(t, steps, e, k);
  }

  /** mem_init: frames in [start, end) are free, all others reserved; no user tables yet. */
  ghost predicate Booted(s: State, start: Frame) {
    && LOW <= start <= s.high <= LOW + PAGING_PAGES && !s.panicked && KernelOk(s)
    && (forall d: nat | IsUser(d) :: !s.phys[0][d].present)
    && s.held == s.memMap
    && forall f: Frame | Managed(f) :: s.memMap[f - LOW] == if start <= f < s.high then 0 else USED
  }

  lemma BootedIsInv(s: State, start: Frame)
    requires Booted(s, start)
    ensures Inv(s)
  {
    forall f: Frame ensures Sites(s.phys, f) == {} {
    }
  }
}
