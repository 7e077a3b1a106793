/** When the operations of mm/memory.c run out of memory: exactly when fewer frames are free
    than they have to take, counted in mem_map before the call. */
module OutOfMemory {
  import opened PhysicalMemory
  import opened Paging
  import opened CopyOnWrite

  /** The frames that can be had. */
  ghost function FreeSet(m: MemMap): set<nat> {
    set i: nat | i < PAGING_PAGES && m[i] == 0
  }

  ghost function Free(m: MemMap): nat { |FreeSet(m)| }

  /** The directory slots from d on, n of them, that have a table. */
  ghost function TableSlots(p: Phys, d: nat, n: nat): set<nat>
    requires d + n <= ENTRIES
  {
    set e: nat | d <= e < d + n && p[0][e].present
  }

  lemma NoneLeft(m: MemMap)
    ensures LastFree(m, PAGING_PAGES) == 0 <==> Free(m) == 0
  {
    var i := LastFree(m, PAGING_PAGES);
    if i > 0 {
      assert i - 1 in FreeSet(m);
      assert FreeSet(m) != {};
    } else {
      assert FreeSet(m) == {};
    }
  }

  /** get_free_page fails if and only if no frame is free; else one fewer is. */
  lemma TakenOne(s: State)
    requires Inv(s)
    ensures var (t, f) := GetFreePage(s);
      if Free(s.memMap) == 0 then f == 0 && t == s else Managed(f) && f != 0 && s.memMap[f - LOW] == 0 && Free(t.memMap) == Free(s.memMap) - 1
  {
    NoneLeft(s.memMap);
    var i := LastFree(s.memMap, PAGING_PAGES);
    if i > 0 {
      var t := GetFreePage(s).0;
      assert FreeSet(t.memMap) == FreeSet(s.memMap) - {i - 1};
      assert i - 1 in FreeSet(s.memMap);
    }
  }

  /** Sharing a page takes no frame. */
  lemma SharedTakesNone(s: State, fd: nat, td: nat, k: nat)
    requires Inv(s) && IsUser(td) && k < ENTRIES && (IsUser(fd) || (fd == 0 && k < KERNEL_PAGES)) && s.phys[0][fd].present
    ensures FreeSet(ShareEntry(s, fd, td, k).memMap) == FreeSet(s.memMap)
  {
    var w := Entry(s.phys, fd, k);
    if w.present && w.frame >= LOW && fd != 0 {
      assert EntryOk(s, fd, k);
      assert Names(s.phys, fd, k, w.frame) && (fd, k) in Sites(s.phys, w.frame);
      assert Sites(s.phys, w.frame) != {};
    }
  }

  lemma {:induction false} CopyTakesNone(s: State, fd: nat, td: nat, k: nat, nr: nat)
    requires Inv(s) && k <= nr <= ENTRIES && IsUser(td) && s.phys[0][td].present && fd != td
    requires (IsUser(fd) && s.phys[0][fd].present) || (fd == 0 && nr <= KERNEL_PAGES)
    requires forall j: nat | k <= j < ENTRIES :: !Entry(s.phys, td, j).present
    ensures Free(CopyEntries(s, fd, td, k, nr).memMap) == Free(s.memMap)
    decreases nr - k
  {
    if k < nr {
      ShareEntryKeeps(s, fd, td, k);
      SharedTakesNone(s, fd, td, k);
      CopyTakesNone(ShareEntry(s, fd, td, k), fd, td, k + 1, nr);
    }
  }

  lemma SlotsFrom(p: Phys, d: nat, n: nat)
    requires d + n <= ENTRIES && n > 0
    ensures |TableSlots(p, d, n)| == |TableSlots(p, d + 1, n - 1)| + if p[0][d].present then 1 else 0
  {
    assert TableSlots(p, d, n) == TableSlots(p, d + 1, n - 1) + if p[0][d].present then {d} else {};
  }

  lemma {:induction false} CopySucceedsIff(s: State, fd: nat, td: nat, n: nat, nr: nat)
    requires Inv(s) && ForkRange(fd, td, n) && Empty(s, td, n) && (n > 0 ==> nr == Copied(fd)) && nr <= ENTRIES
    ensures CopyTables(s, fd, td, n, nr).1 <==> Free(s.memMap) >= |TableSlots(s.phys, fd, n)|
    decreases n
  {
    if n == 0 {
      assert TableSlots(s.phys, fd, n) == {};
    } else {
      var v, more := NextRound(s, fd, td, n, nr);
      if more {
        CopySucceedsIff(v, fd + 1, td + 1, n - 1, nr);
      }
    }
  }

  /** The state after a round that found its frame, or needed none. */
  lemma NextRound(s: State, fd: nat, td: nat, n: nat, nr: nat) returns (v: State, more: bool)
    requires Inv(s) && n > 0 && ForkRange(fd, td, n) && Empty(s, td, n) && nr == Copied(fd)
    ensures more <==> !s.phys[0][fd].present || Free(s.memMap) > 0
    ensures CopyTables(s, fd, td, n, nr).1 <==> more && CopyTables(v, fd + 1, td + 1, n - 1, nr).1
    ensures more ==> Inv(v) && Empty(v, td + 1, n - 1)
    ensures more ==> Free(s.memMap) - |TableSlots(s.phys, fd, n)| == Free(v.memMap) - |TableSlots(v.phys, fd + 1, n - 1)|
    ensures |TableSlots(s.phys, fd, n)| >= if s.phys[0][fd].present then 1 else 0
  {
    SlotsFrom(s.phys, fd, n);
    CopyRound(s, fd, td, n, nr);
    TakenOne(s);
    var f := GetFreePage(s).1;
    more := !s.phys[0][fd].present || f != 0;
    v := s;
    if s.phys[0][fd].present && f != 0 {
      v := CopyEntries(InstallTable(GetFreePage(s).0, td, f), fd, td, 0, nr);
      CopyOneSlot(s, fd, td, n, f);
    }
  }

  lemma CopyRound(s: State, fd: nat, td: nat, n: nat, nr: nat)
    requires n > 0 && fd + n <= ENTRIES && td + n <= ENTRIES && nr <= ENTRIES && !s.phys[0][td].present
    ensures var f := GetFreePage(s).1;
      CopyTables(s, fd, td, n, nr).1 ==
      if !s.phys[0][fd].present then CopyTables(s, fd + 1, td + 1, n - 1, nr).1
      else f != 0 && CopyTables(CopyEntries(InstallTable(GetFreePage(s).0, td, f), fd, td, 0, nr), fd + 1, td + 1, n - 1, nr).1
  {
  }

  /** One slot takes one frame, its table, and leaves the slots to come as they were. */
  lemma CopyOneSlot(s: State, fd: nat, td: nat, n: nat, f: Frame)
    requires Inv(s) && n > 0 && ForkRange(fd, td, n) && Empty(s, td, n) && s.phys[0][fd].present
    requires GetFreePage(s).1 == f && f != 0
    ensures var v := CopyEntries(InstallTable(GetFreePage(s).0, td, f), fd, td, 0, Copied(fd));
      && Inv(v) && Empty(v, td + 1, n - 1) && Free(v.memMap) == Free(s.memMap) - 1
      && TableSlots(v.phys, fd + 1, n - 1) == TableSlots(s.phys, fd + 1, n - 1)
  {
    var u := InstallTable(GetFreePage(s).0, td, f);
    CopySlotKeeps(s, fd, td, f);
    TakenOne(s);
    TakePageKeeps(s, f);
    InstallTableKeeps(GetFreePage(s).0, td, f);
    CopyTakesNone(u, fd, td, 0, Copied(fd));
    var v := CopyEntries(u, fd, td, 0, Copied(fd));
    forall e: nat | fd + 1 <= e < fd + n || td + 1 <= e < td + n ensures v.phys[0][e].present == s.phys[0][e].present {
      assert IsUser(e) && e != td && SameSpace(s, v, e);
    }
  }

  /** A fork succeeds if and only if there are as many free frames as the parent has tables. */
  lemma ForkSucceedsIff(s: State, fd: nat, td: nat, n: nat)
    requires Inv(s) && ForkRange(fd, td, n) && Empty(s, td, n)
    ensures Fork(s, fd, td, n).1 <==> Free(s.memMap) >= |TableSlots(s.phys, fd, n)|
  {
    CopySucceedsIff(s, fd, td, n, Copied(fd));
  }

  /** Mapping a page fails if and only if the slot needs a table and there is no frame for it. */
  lemma PutSucceedsIff(s: State, f: Frame, d: nat, k: nat)
    requires Inv(s) && IsUser(d) && k < ENTRIES
    ensures var (t, ok) := PutPage(s, f, d, k);
      (ok <==> s.phys[0][d].present || Free(s.memMap) >= 1) && (!ok ==> t == s)
      && (ok ==> t.phys[0][d].present && Entry(t.phys, d, k) == Word(f, true, true, true, false, 0))
  {
    TakenOne(s);
  }

  /** A demand-zero fault needs a frame for the page, and one for the table if there is none. */
  lemma EmptySucceedsIff(s: State, d: nat, k: nat)
    requires Inv(s) && IsUser(d) && k < ENTRIES && ViewAt(s, d, k) == Absent
    ensures GetEmptyPage(s, d, k).1 <==> Free(s.memMap) >= if s.phys[0][d].present then 1 else 2
  {
    TakenOne(s);
    if Free(s.memMap) > 0 {
      var (t, f) := GetFreePage(s);
      TakePageKeeps(s, f);
      PutSucceedsIff(t, f, d, k);
    }
  }

  /** Copy on write needs a frame if and only if somebody else has the page too, and leaves the
      page writable. */
  lemma UnWpSucceedsIff(s: State, d: nat, k: nat)
    requires Inv(s) && IsUser(d) && k < ENTRIES && s.phys[0][d].present && Entry(s.phys, d, k).present
    ensures var w := Entry(s.phys, d, k);
      UnWp(s, d, k).1 <==> (Managed(w.frame) && s.memMap[w.frame - LOW] == 1) || Free(s.memMap) >= 1
    ensures var w := Entry(s.phys, d, k); var (t, ok) := UnWp(s, d, k);
      Managed(w.frame) && s.memMap[w.frame - LOW] == 1 ==> ok && Free(t.memMap) == Free(s.memMap) && Entry(t.phys, d, k).frame == w.frame
  {
    TakenOne(s);
    TablesAreOwn(s, d);
    EntryWrite(s.phys, d, k, Entry(s.phys, d, k).(writable := true));
    assert EntryOk(s, d, k);
  }

  /** A verified page can be written: nothing happens to one that is absent or writable. */
  lemma VerifyIs(s: State, d: nat, k: nat)
    requires Inv(s) && IsUser(d) && k < ENTRIES
    ensures var w := Entry(s.phys, d, k); var (t, ok) := WriteVerify(s, d, k);
      if !s.phys[0][d].present || !w.present || w.writable then t == s && ok
      else
        && (ok <==> (Managed(w.frame) && s.memMap[w.frame - LOW] == 1) || Free(s.memMap) >= 1)
        && (ok ==> t.phys[0][d].present && Entry(t.phys, d, k).present && Entry(t.phys, d, k).writable)
  {
    var w := Entry(s.phys, d, k);
    if s.phys[0][d].present && w.present && !w.writable {
      UnWpSucceedsIff(s, d, k);
      UnWpKeeps(s, d, k);
    }
  }

  /** A store goes through if and only if the frames its fault needs are free. */
  lemma StoreSucceedsIff(s: State, d: nat, k: nat, o: nat, x: Word)
    requires Inv(s) && IsUser(d) && k < ENTRIES && o < ENTRIES
    ensures var w := Entry(s.phys, d, k);
      var needed := if !s.phys[0][d].present then 2 else if !w.present then 1
                    else if w.writable || (Managed(w.frame) && s.memMap[w.frame - LOW] == 1) then 0 else 1;
      Store(s, d, k, o, x).1 <==> Free(s.memMap) >= needed
  {
    if s.phys[0][d].present && Entry(s.phys, d, k).present {
      VerifyIs(s, d, k);
    } else {
      EmptySucceedsIff(s, d, k);
    }
  }

  /** try_to_share shares a page exactly when the other task has it, clean and in counted memory,
      and there is a table to map it in or a frame for one. */
  lemma SharesIff(s: State, fd: nat, td: nat, k: nat)
    requires Inv(s) && IsUser(fd) && IsUser(td) && fd != td && k < ENTRIES && ViewAt(s, td, k) == Absent
    ensures var w := Entry(s.phys, fd, k); var r := TryToShare(s, fd, td, k).1;
      var clean := s.phys[0][fd].present && w.present && !w.dirty && LOW <= w.frame < s.high;
      && (r == Shared <==> clean && (s.phys[0][td].present || Free(s.memMap) >= 1))
      && (r == OutOfMemory <==> clean && !s.phys[0][td].present && Free(s.memMap) == 0)
  {
    TakenOne(s);
  }

  /** free_page: nothing below LOW_MEM; a panic past the end of memory or for a free frame; else
      one user fewer. */
  lemma FreePageIs(s: State, f: Frame)
    requires s.high <= LOW + PAGING_PAGES
    ensures var t := FreePage(s, f); var i := f - 0x100;
      && (f < 0x100 ==> t == s) && (f >= 0x100 && f >= s.high ==> t == s.(panicked := true))
      && (0x100 <= f < s.high ==> t == if s.memMap[i] == 0 then s.(panicked := true) else s.(memMap := s.memMap[i := s.memMap[i] - 1]))
  {
  }
}
