/** mm/memory.c in its own form: mem_map[] and the page tables updated in place. Every
    method is proved to do what the functions of module Paging say, and the promises
    of module CopyOnWrite are about those functions. */
module Mm {
  import opened PhysicalMemory
  import opened Paging
  import opened CopyOnWrite
  import opened OutOfMemory

  class Memory {
    const memMap: array<nat>
    const phys: array<Page>
    var high: nat
    var panicked: bool
    ghost var held: MemMap

    ghost predicate Valid() {
      memMap.Length == PAGING_PAGES && phys.Length == 0x10_0000
    }

    ghost function Abs(): State
      requires Valid()
      reads this, memMap, phys
    {
      State(memMap[..], phys[..], high, held, panicked)
    }

    /** mem_init, on the page tables head.s left behind. */
    constructor (boot: array<Page>, start: Frame, end: Frame)
      requires boot.Length == 0x10_0000 && LOW <= start <= end <= LOW + PAGING_PAGES
      requires var t := boot[0][0]; t.present && 0 < t.frame < LOW
      requires forall k | 0 <= k < KERNEL_PAGES :: Entry(boot[..], 0, k).present && Entry(boot[..], 0, k).frame < LOW
      requires forall d: nat | IsUser(d) :: !boot[0][d].present
      ensures Valid() && phys == boot && fresh(memMap) && Booted(Abs(), start) && high == end && Inv(Abs())
    {
      memMap := new nat[PAGING_PAGES](i => USED);
      phys := boot;
      high := end;
      panicked := false;
      held := seq(PAGING_PAGES, _ => 0);
      new;
      var i := start - LOW;
      while i < end - LOW
        invariant start - LOW <= i <= end - LOW
        invariant forall j | 0 <= j < PAGING_PAGES :: memMap[j] == if start - LOW <= j < i then 0 else USED
        modifies memMap
      {
        memMap[i] := 0;
        i := i + 1;
      }
      held := memMap[..];
      BootedIsInv(Abs(), start);
    }

    method GetFreePage() returns (f: Frame)
      requires Valid()
      modifies this`held, memMap, phys
      ensures (Abs(), f) == Paging.GetFreePage(old(Abs()))
    {
      var i := PAGING_PAGES;
      while i > 0 && memMap[i - 1] != 0
        invariant 0 <= i <= PAGING_PAGES
        invariant LastFree(memMap[..], i) == LastFree(memMap[..], PAGING_PAGES)
      {
        i := i - 1;
      }
      if i == 0 {
        return 0;
      }
      f := FrameOf(i);
      ghost var before := Abs();
      memMap[i - 1] := 1;
      phys[f] := ZeroPage();
      held := Adjust(held, f, 1);
      assert memMap[..] == Adjust(before.memMap, f, 1);
      assert phys[..] == before.phys[f := ZeroPage()];
    }

    method FreePage(f: Frame)
      requires Valid()
      modifies this`panicked, memMap
      ensures Abs() == Paging.FreePage(old(Abs()), f)
    {
      if f < LOW {
        return;
      }
      if f >= high || f >= LOW + PAGING_PAGES || memMap[f - LOW] == 0 {
        panicked := true;
        return;
      }
      ghost var before := Abs();
      memMap[f - LOW] := memMap[f - LOW] - 1;
      assert memMap[..] == Adjust(before.memMap, f, -1);
    }

    method WriteEntry(d: nat, k: nat, w: Word)
      requires Valid() && d < ENTRIES && k < ENTRIES
      modifies phys
      ensures phys[..] == SetEntry(old(phys[..]), d, k, w)
    {
      var t := phys[0][d].frame;
      phys[t] := phys[t][k := w];
    }

    method WriteDir(d: nat, w: Word)
      requires Valid() && d < ENTRIES
      modifies phys
      ensures phys[..] == SetDir(old(phys[..]), d, w)
    {
      phys[0] := phys[0][d := w];
    }

    method ClearOneEntry(d: nat, k: nat)
      requires Valid() && d < ENTRIES && k < ENTRIES
      modifies this`panicked, memMap, phys
      ensures Abs() == ClearEntry(old(Abs()), d, k)
    {
      var w := phys[phys[0][d].frame][k];
      if w.present {
        FreePage(w.frame);
      }
      WriteEntry(d, k, ZERO);
    }

    /** The inner loop of free_page_tables. */
    method ClearPageTable(d: nat)
      requires Valid() && d < ENTRIES
      modifies this`panicked, memMap, phys
      ensures Abs() == ClearTable(old(Abs()), d, 0)
    {
      var k := 0;
      while k < ENTRIES
        invariant k <= ENTRIES
        invariant ClearTable(Abs(), d, k) == ClearTable(old(Abs()), d, 0)
      {
        ClearOneEntry(d, k);
        k := k + 1;
      }
    }

    method FreePageTables(d0: nat, size: nat)
      requires Valid() && d0 + size <= ENTRIES
      modifies this`panicked, memMap, phys
      ensures Abs() == FreeTables(old(Abs()), d0, size)
    {
      var d, n := d0, size;
      while n > 0
        invariant d + n == d0 + size
        invariant FreeTables(Abs(), d, n) == FreeTables(old(Abs()), d0, size)
      {
        if phys[0][d].present {
          ClearPageTable(d);
          FreePage(phys[0][d].frame);
          WriteDir(d, ZERO);
        }
        d, n := d + 1, n - 1;
      }
    }

    /** The inner loop of copy_page_tables. */
    method CopyPageTable(fd: nat, td: nat, nr: nat)
      requires Valid() && fd < ENTRIES && td < ENTRIES && nr <= ENTRIES
      modifies this`panicked, memMap, phys
      ensures Abs() == CopyEntries(old(Abs()), fd, td, 0, nr)
    {
      var k := 0;
      while k < nr
        invariant k <= nr
        invariant CopyEntries(Abs(), fd, td, k, nr) == CopyEntries(old(Abs()), fd, td, 0, nr)
      {
        CopyOneEntry(fd, td, k);
        k := k + 1;
      }
    }

    /** A page for the child's table, and the parent's entries into it; false if there is none. */
    method CopyOneTable(fd: nat, td: nat, nr: nat) returns (ok: bool)
      requires Valid() && fd < ENTRIES && td < ENTRIES && nr <= ENTRIES
      modifies this`panicked, this`held, memMap, phys
      ensures var (t, f) := Paging.GetFreePage(old(Abs()));
        ok == (f != 0) && Abs() == if ok then CopyEntries(InstallTable(t, td, f), fd, td, 0, nr) else t
    {
      var f := GetFreePage();
      if f == 0 {
        return false;
      }
      WriteDir(td, Mapped(f));
      held := Adjust(held, f, -1);
      CopyPageTable(fd, td, nr);
      ok := true;
    }

    method CopyPageTables(from: nat, to: nat, size: nat) returns (ok: bool)
      requires Valid() && from + size <= ENTRIES && to + size <= ENTRIES
      modifies this`panicked, this`held, memMap, phys
      ensures (Abs(), ok) == CopyTables(old(Abs()), from, to, size, if from == 0 then KERNEL_PAGES else ENTRIES)
    {
      var nr := if from == 0 then KERNEL_PAGES else ENTRIES;
      var fd, td, n := from, to, size;
      while n > 0
        invariant fd + n == from + size && td + n == to + size
        invariant CopyTables(Abs(), fd, td, n, nr) == CopyTables(old(Abs()), from, to, size, nr)
      {
        ghost var s := Abs();
        if phys[0][td].present {
          panicked := true;
          return true;
        }
        ok := CopyRound(fd, td, nr);
        RoundStep(s, Abs(), ok, fd, td, n, nr);
        if !ok {
          return;
        }
        fd, td, n := fd + 1, td + 1, n - 1;
      }
      return true;
    }

    method CopyRound(fd: nat, td: nat, nr: nat) returns (ok: bool)
      requires Valid() && fd < ENTRIES && td < ENTRIES && nr <= ENTRIES
      modifies this`panicked, this`held, memMap, phys
      ensures Round(old(Abs()), fd, td, nr, Abs(), ok)
    {
      ok := true;
      if phys[0][fd].present {
        ok := CopyOneTable(fd, td, nr);
      }
    }

    method CopyOneEntry(fd: nat, td: nat, k: nat)
      requires Valid() && fd < ENTRIES && td < ENTRIES && k < ENTRIES
      modifies this`panicked, memMap, phys
      ensures Abs() == ShareEntry(old(Abs()), fd, td, k)
    {
      var w := phys[phys[0][fd].frame][k];
      if !w.present {
        return;
      }
      w := w.(writable := false);
      if w.frame >= LOW + PAGING_PAGES {
        panicked := true;
        return;
      }
      WriteEntry(td, k, w);
      if w.frame >= LOW {
        WriteEntry(fd, k, w);
        ghost var before := memMap[..];
        memMap[w.frame - LOW] := memMap[w.frame - LOW] + 1;
        assert memMap[..] == Adjust(before, w.frame, 1);
      }
    }

    /** The tail of copy_mem. */
    method CopyMem(from: nat, to: nat, size: nat) returns (ok: bool)
      requires Valid() && from + size <= ENTRIES && to + size <= ENTRIES
      modifies this`panicked, this`held, memMap, phys
      ensures (Abs(), ok) == Fork(old(Abs()), from, to, size)
      ensures old(Inv(Abs())) && ForkRange(from, to, size) && old(Empty(Abs(), to, size)) ==>
        (ok <==> Free(old(memMap[..])) >= |TableSlots(old(phys[..]), from, size)|)
    {
      if Inv(Abs()) && ForkRange(from, to, size) && Empty(Abs(), to, size) {
        ForkSucceedsIff(Abs(), from, to, size);
      }
      ok := CopyPageTables(from, to, size);
      if !ok {
        FreePageTables(to, size);
      }
    }

    method PutPage(f: Frame, d: nat, k: nat) returns (ok: bool)
      requires Valid() && d < ENTRIES && k < ENTRIES
      modifies this`held, memMap, phys
      ensures (Abs(), ok) == Paging.PutPage(old(Abs()), f, d, k)
    {
      if !phys[0][d].present {
        var g := GetFreePage();
        if g == 0 {
          return false;
        }
        WriteDir(d, Mapped(g));
        held := Adjust(held, g, -1);
      }
      WriteEntry(d, k, Mapped(f));
      held := Adjust(held, f, -1);
      return true;
    }

    method GetEmptyPage(d: nat, k: nat) returns (ok: bool)
      requires Valid() && d < ENTRIES && k < ENTRIES
      modifies this`held, this`panicked, memMap, phys
      ensures (Abs(), ok) == Paging.GetEmptyPage(old(Abs()), d, k)
    {
      var f := GetFreePage();
      if f == 0 {
        return false;
      }
      ok := PutPage(f, d, k);
      if !ok {
        FreePage(f);
        held := Adjust(held, f, -1);
      }
    }

    method UnWpPage(d: nat, k: nat) returns (ok: bool)
      requires Valid() && d < ENTRIES && k < ENTRIES
      modifies this`held, memMap, phys
      ensures (Abs(), ok) == UnWp(old(Abs()), d, k)
    {
      var w := phys[phys[0][d].frame][k];
      var counted := LOW <= w.frame < LOW + PAGING_PAGES;
      if counted && memMap[w.frame - LOW] == 1 {
        WriteEntry(d, k, w.(writable := true));
        return true;
      }
      var f := GetFreePage();
      if f == 0 {
        return false;
      }
      ghost var before := Abs();
      var page := phys[phys[phys[0][d].frame][k].frame];
      var from := phys[phys[0][d].frame][k].frame;
      if LOW <= from < LOW + PAGING_PAGES && memMap[from - LOW] > 0 {
        memMap[from - LOW] := memMap[from - LOW] - 1;
      }
      assert memMap[..] == Adjust(before.memMap, from, -1);
      WriteEntry(d, k, Mapped(f));
      ghost var p1 := phys[..];
      phys[f] := page;
      assert phys[..] == p1[f := page];
      held := Adjust(held, f, -1);
      return true;
    }

    method WriteVerify(d: nat, k: nat) returns (ok: bool)
      requires Valid() && d < ENTRIES && k < ENTRIES
      modifies this`held, memMap, phys
      ensures (Abs(), ok) == Paging.WriteVerify(old(Abs()), d, k)
    {
      ok := true;
      if phys[0][d].present {
        var w := phys[phys[0][d].frame][k];
        if w.present && !w.writable {
          ok := UnWpPage(d, k);
        }
      }
    }

    method TryToShare(fd: nat, td: nat, k: nat) returns (r: Sharing)
      requires Valid() && fd < ENTRIES && td < ENTRIES && k < ENTRIES
      modifies this`held, this`panicked, memMap, phys
      ensures (Abs(), r) == Paging.TryToShare(old(Abs()), fd, td, k)
    {
      if !phys[0][fd].present {
        return NotShared;
      }
      var w := phys[phys[0][fd].frame][k];
      if !w.present || w.dirty || w.frame >= high || w.frame < LOW {
        return NotShared;
      }
      if !phys[0][td].present {
        var g := GetFreePage();
        if g == 0 {
          return OutOfMemory;
        }
        WriteDir(td, Mapped(g));
        held := Adjust(held, g, -1);
      }
      if phys[phys[0][td].frame][k].present {
        panicked := true;
        return Shared;
      }
      CopyOneEntry(fd, td, k);
      return Shared;
    }
  }

  /** One round of copy_page_tables from s comes to u, with memory enough or not. */
  ghost predicate Round(s: State, fd: nat, td: nat, nr: nat, u: State, ok: bool)
    requires fd < ENTRIES && td < ENTRIES && nr <= ENTRIES
  {
    if !s.phys[0][fd].present then u == s && ok
    else
      var (t, f) := Paging.GetFreePage(s);
      ok == (f != 0) && u == if ok then CopyEntries(InstallTable(t, td, f), fd, td, 0, nr) else t
  }

  lemma RoundStep(s: State, u: State, ok: bool, fd: nat, td: nat, n: nat, nr: nat)
    requires n > 0 && fd + n <= ENTRIES && td + n <= ENTRIES && nr <= ENTRIES
    requires !s.phys[0][td].present && Round(s, fd, td, nr, u, ok)
    ensures CopyTables(s, fd, td, n, nr) == if ok then CopyTables(u, fd + 1, td + 1, n - 1, nr) else (u, false)
  {
  }
}
