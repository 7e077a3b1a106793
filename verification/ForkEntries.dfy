/** The page-table words a fork leaves, bit for bit: the child's entries are the parent's without
    the write bit, the parent loses that bit where the page is counted, and nobody else's word
    changes. */
module ForkEntries {
  import opened PhysicalMemory
  import opened Paging
  import opened CopyOnWrite

  /** What sharing leaves of the parent's word. */
  function Protected(v: Word): Word {
    if v.present && v.frame >= LOW then v.(writable := false) else v
  }

  /** Word j of slot e after the first nr entries of slot fd were copied. */
  ghost predicate WordKept(s: State, t: State, fd: nat, k: nat, nr: nat, e: nat, j: nat)
    requires fd < ENTRIES && e < ENTRIES && j < ENTRIES
  {
    Entry(t.phys, e, j) == if e == fd && k <= j < nr then Protected(Entry(s.phys, e, j)) else Entry(s.phys, e, j)
  }

  ghost predicate WordCopied(s: State, t: State, fd: nat, td: nat, j: nat)
    requires fd < ENTRIES && td < ENTRIES && j < ENTRIES
  {
    var v, w := Entry(s.phys, fd, j), Entry(t.phys, td, j);
    w.present == v.present && (v.present ==> w == v.(writable := false))
  }

  /** No word of a slot other than td is touched, but for Protected ones of slot fd. */
  ghost predicate OthersKept(s: State, t: State, fd: nat, td: nat, k: nat, nr: nat)
    requires fd < ENTRIES
  {
    t.phys[0] == s.phys[0] &&
    forall e: nat, j: nat {:trigger Entry(t.phys, e, j)} | IsUser(e) && e != td && s.phys[0][e].present && j < ENTRIES :: WordKept(s, t, fd, k, nr, e, j)
  }

  lemma ShareWords(s: State, fd: nat, td: nat, k: nat)
    requires Inv(s) && IsUser(td) && k < ENTRIES && s.phys[0][td].present && fd != td
    requires (IsUser(fd) && s.phys[0][fd].present) || (fd == 0 && k < KERNEL_PAGES)
    requires !Entry(s.phys, td, k).present
    ensures var t := ShareEntry(s, fd, td, k);
      && WordCopied(s, t, fd, td, k) && OthersKept(s, t, fd, td, k, k + 1)
      && forall j: nat | j < ENTRIES && j != k :: Entry(t.phys, td, j) == Entry(s.phys, td, j)
  {
    var v, t := Entry(s.phys, fd, k), ShareEntry(s, fd, td, k);
    ShareEntryKeeps(s, fd, td, k);
    TablesAreOwn(s, td);
    EntryWrite(s.phys, td, k, v.(writable := false));
    if v.present && v.frame >= LOW && fd != 0 {
      assert EntryOk(s, fd, k);
      TablesAreOwn(s, fd);
      var p := SetEntry(s.phys, td, k, v.(writable := false));
      assert OwnTable(p, fd);
      EntryWrite(p, fd, k, v.(writable := false));
    }
    assert fd == 0 ==> Entry(s.phys, 0, k).frame < LOW;
    var next := k + 1;
    forall e: nat, j: nat | IsUser(e) && e != td && s.phys[0][e].present && j < ENTRIES ensures WordKept(s, t, fd, k, next, e, j) {
    }
  }

  lemma {:induction false} CopyWords(s: State, fd: nat, td: nat, k: nat, nr: nat)
    requires Inv(s) && k <= nr <= ENTRIES && IsUser(td) && s.phys[0][td].present && fd != td
    requires (IsUser(fd) && s.phys[0][fd].present) || (fd == 0 && nr <= KERNEL_PAGES)
    requires forall j: nat | k <= j < ENTRIES :: !Entry(s.phys, td, j).present
    ensures var t := CopyEntries(s, fd, td, k, nr);
      && OthersKept(s, t, fd, td, k, nr)
      && (forall j: nat | j < k :: Entry(t.phys, td, j) == Entry(s.phys, td, j))
      && (forall j: nat | k <= j < nr :: WordCopied(s, t, fd, td, j))
      && forall j: nat | nr <= j < ENTRIES :: !Entry(t.phys, td, j).present
    decreases nr - k
  {
    forall e: nat, j: nat | IsUser(e) && j < ENTRIES ensures WordKept(s, s, fd, nr, nr, e, j) {
    }
    if k < nr {
      var u := ShareEntry(s, fd, td, k);
      ShareEntryKeeps(s, fd, td, k);
      ShareWords(s, fd, td, k);
      CopyWords(u, fd, td, k + 1, nr);
      var t := CopyEntries(u, fd, td, k + 1, nr);
      forall e: nat, j: nat | IsUser(e) && e != td && s.phys[0][e].present && j < ENTRIES ensures WordKept(s, t, fd, k, nr, e, j) {
        assert WordKept(s, u, fd, k, k + 1, e, j) && WordKept(u, t, fd, k + 1, nr, e, j);
      }
      forall j: nat | k <= j < nr ensures WordCopied(s, t, fd, td, j) {
        if j > k {
          assert WordCopied(u, t, fd, td, j);
          SourceSame(s, u, fd, td, k, j);
        }
      }
    }
  }

  lemma SourceSame(s: State, u: State, fd: nat, td: nat, k: nat, j: nat)
    requires IsUser(td) && fd != td && k < j < ENTRIES && s.phys[0][td].present
    requires (IsUser(fd) && s.phys[0][fd].present && OthersKept(s, u, fd, td, k, k + 1)) || (fd == 0 && j < KERNEL_PAGES && KernelSame(s, u))
    ensures Entry(u.phys, fd, j) == Entry(s.phys, fd, j)
  {
    assert IsUser(fd) && s.phys[0][fd].present && OthersKept(s, u, fd, td, k, k + 1) ==> WordKept(s, u, fd, k, k + 1, fd, j);
  }

  // ---- all slots ------------------------------------------------------------------------------

  /** Slot e of the child is slot q of the parent, word for word. */
  ghost predicate SlotCopied(s: State, t: State, q: nat, e: nat, nr: nat)
    requires q < ENTRIES && e < ENTRIES && nr <= ENTRIES
  {
    && t.phys[0][e].present == s.phys[0][q].present
    && (s.phys[0][q].present ==>
      (forall j: nat | j < nr :: WordCopied(s, t, q, e, j)) && forall j: nat | nr <= j < ENTRIES :: !Entry(t.phys, e, j).present)
  }

  /** Word j of slot e: protected in the n slots from fd on, elsewhere the same. */
  ghost predicate OutsideWord(s: State, t: State, fd: nat, n: nat, nr: nat, e: nat, j: nat)
    requires e < ENTRIES && j < ENTRIES
  {
    && t.phys[0][e] == s.phys[0][e]
    && Entry(t.phys, e, j) == if fd <= e < fd + n && j < nr then Protected(Entry(s.phys, e, j)) else Entry(s.phys, e, j)
  }

  /** All words outside the child's slots. */
  ghost predicate OutsideKept(s: State, t: State, fd: nat, td: nat, n: nat, nr: nat) {
    forall e: nat, j: nat {:trigger OutsideWord(s, t, fd, n, nr, e, j)} |
      IsUser(e) && !(td <= e < td + n) && s.phys[0][e].present && j < ENTRIES :: OutsideWord(s, t, fd, n, nr, e, j)
  }

  /** One round of the outer loop. */
  lemma SlotWords(s: State, fd: nat, td: nat, f: Frame)
    requires Inv(s) && ForkRange(fd, td, 1) && s.phys[0][fd].present && !s.phys[0][td].present
    requires GetFreePage(s).1 == f && f != 0
    ensures var v := CopyEntries(InstallTable(GetFreePage(s).0, td, f), fd, td, 0, Copied(fd));
      OutsideKept(s, v, fd, td, 1, Copied(fd)) && SlotCopied(s, v, fd, td, Copied(fd))
  {
    var t := GetFreePage(s).0;
    TakePageKeeps(s, f);
    var u := InstallTable(t, td, f);
    InstallTableKeeps(t, td, f);
    CopyWords(u, fd, td, 0, Copied(fd));
    var v := CopyEntries(u, fd, td, 0, Copied(fd));
    forall e: nat, j: nat | IsUser(e) && e != td && s.phys[0][e].present && j < ENTRIES
      ensures OutsideWord(s, v, fd, 1, Copied(fd), e, j)
    {
      InstallWords(s, td, f, e, j);
      assert WordKept(u, v, fd, 0, Copied(fd), e, j);
    }
    forall j: nat | j < Copied(fd) ensures WordCopied(s, v, fd, td, j) {
      assert WordCopied(u, v, fd, td, j);
      if fd != 0 {
        InstallWords(s, td, f, fd, j);
      }
    }
  }

  lemma InstallWords(s: State, td: nat, f: Frame, e: nat, j: nat)
    requires Inv(s) && IsUser(td) && !s.phys[0][td].present && GetFreePage(s).1 == f && f != 0
    requires IsUser(e) && e != td && s.phys[0][e].present && j < ENTRIES
    ensures var u := InstallTable(GetFreePage(s).0, td, f); u.phys[0][e] == s.phys[0][e] && Entry(u.phys, e, j) == Entry(s.phys, e, j)
  {
    var t := GetFreePage(s).0;
    TakePageKeeps(s, f);
    assert Entry(t.phys, e, j) == Entry(s.phys, e, j) && t.phys[0] == s.phys[0];
    assert TableOk(s, e);
  }

  /** After a fork that succeeds: the child's words, the parent's, and everybody else's. */
  lemma {:induction false} TableWords(s: State, fd: nat, td: nat, n: nat, nr: nat)
    requires Inv(s) && ForkRange(fd, td, n) && Empty(s, td, n) && (n > 0 ==> nr == Copied(fd)) && nr <= ENTRIES
    requires CopyTables(s, fd, td, n, nr).1
    ensures var t := CopyTables(s, fd, td, n, nr).0;
      && OutsideKept(s, t, fd, td, n, nr)
      && forall q: nat, e: nat | td <= e < td + n && q == e - td + fd :: SlotCopied(s, t, q, e, nr)
    decreases n
  {
    if n > 0 {
      var v := AfterRound(s, fd, td, n, nr);
      TableWords(v, fd + 1, td + 1, n - 1, nr);
      CopyTablesKeeps(v, fd + 1, td + 1, n - 1, nr);
      assert SameSpace(v, CopyTables(s, fd, td, n, nr).0, td);
      WordsJoin(s, v, CopyTables(s, fd, td, n, nr).0, fd, td, n, nr);
    }
  }

  lemma AfterRound(s: State, fd: nat, td: nat, n: nat, nr: nat) returns (v: State)
    requires Inv(s) && n > 0 && ForkRange(fd, td, n) && Empty(s, td, n) && nr == Copied(fd) && CopyTables(s, fd, td, n, nr).1
    ensures CopyTables(s, fd, td, n, nr) == CopyTables(v, fd + 1, td + 1, n - 1, nr)
    ensures Inv(v) && Empty(v, td + 1, n - 1) && OutsideKept(s, v, fd, td, 1, nr) && SlotCopied(s, v, fd, td, nr)
    ensures forall e: nat | IsUser(e) && e != td :: v.phys[0][e].present == s.phys[0][e].present
  {
    v := RoundState(s, fd, td, n, nr);
    if s.phys[0][fd].present {
      CopiedRound(s, v, fd, td, nr);
    } else {
      forall e: nat, j: nat | IsUser(e) && e != td && s.phys[0][e].present && j < ENTRIES ensures OutsideWord(s, s, fd, 1, nr, e, j) {
      }
    }
  }

  lemma RoundState(s: State, fd: nat, td: nat, n: nat, nr: nat) returns (v: State)
    requires n > 0 && fd + n <= ENTRIES && td + n <= ENTRIES && nr <= ENTRIES && !s.phys[0][td].present && CopyTables(s, fd, td, n, nr).1
    ensures CopyTables(s, fd, td, n, nr) == CopyTables(v, fd + 1, td + 1, n - 1, nr)
    ensures s.phys[0][fd].present ==>
      GetFreePage(s).1 != 0 && v == CopyEntries(InstallTable(GetFreePage(s).0, td, GetFreePage(s).1), fd, td, 0, nr)
    ensures !s.phys[0][fd].present ==> v == s
  {
    v := if s.phys[0][fd].present then CopyEntries(InstallTable(GetFreePage(s).0, td, GetFreePage(s).1), fd, td, 0, nr) else s;
  }

  lemma CopiedRound(s: State, v: State, fd: nat, td: nat, nr: nat)
    requires Inv(s) && ForkRange(fd, td, 1) && s.phys[0][fd].present && !s.phys[0][td].present && nr == Copied(fd)
    requires GetFreePage(s).1 != 0 && v == CopyEntries(InstallTable(GetFreePage(s).0, td, GetFreePage(s).1), fd, td, 0, nr)
    ensures Inv(v) && OutsideKept(s, v, fd, td, 1, nr) && SlotCopied(s, v, fd, td, nr)
    ensures forall e: nat | IsUser(e) && e != td :: v.phys[0][e].present == s.phys[0][e].present
  {
    CopySlotKeeps(s, fd, td, GetFreePage(s).1);
    SlotWords(s, fd, td, GetFreePage(s).1);
    forall e: nat | IsUser(e) && e != td ensures v.phys[0][e].present == s.phys[0][e].present {
      assert SameSpace(s, v, e);
    }
  }

  lemma WordsJoin(s: State, v: State, t: State, fd: nat, td: nat, n: nat, nr: nat)
    requires n > 0 && ForkRange(fd, td, n) && nr == Copied(fd)
    requires OutsideKept(s, v, fd, td, 1, nr) && SlotCopied(s, v, fd, td, nr)
    requires OutsideKept(v, t, fd + 1, td + 1, n - 1, nr)
    requires forall e: nat | IsUser(e) && e != td :: v.phys[0][e].present == s.phys[0][e].present
    requires forall q: nat, e: nat | td + 1 <= e < td + n && q == e - td + fd :: SlotCopied(v, t, q, e, nr)
    requires !v.phys[0][td].present ==> !t.phys[0][td].present
    ensures OutsideKept(s, t, fd, td, n, nr)
    ensures forall q: nat, e: nat | td <= e < td + n && q == e - td + fd :: SlotCopied(s, t, q, e, nr)
  {
    forall e: nat, j: nat | IsUser(e) && !(td <= e < td + n) && s.phys[0][e].present && j < ENTRIES
      ensures OutsideWord(s, t, fd, n, nr, e, j)
    {
      assert OutsideWord(s, v, fd, 1, nr, e, j);
      assert OutsideWord(v, t, fd + 1, n - 1, nr, e, j);
    }
    forall q: nat, e: nat | td <= e < td + n && q == e - td + fd ensures SlotCopied(s, t, q, e, nr) {
      if e > td {
        SlotFromRest(s, v, t, fd, td, n, nr, q, e);
      } else {
        FirstSlotStays(s, v, t, fd, td, n, nr);
      }
    }
  }

  lemma SlotFromRest(s: State, v: State, t: State, fd: nat, td: nat, n: nat, nr: nat, q: nat, e: nat)
    requires n > 0 && ForkRange(fd, td, n) && nr == Copied(fd) && td < e < td + n && q == e - td + fd
    requires OutsideKept(s, v, fd, td, 1, nr) && SlotCopied(v, t, q, e, nr) && v.phys[0][q].present == s.phys[0][q].present
    ensures SlotCopied(s, t, q, e, nr)
  {
    forall j: nat | j < nr && s.phys[0][q].present ensures WordCopied(s, t, q, e, j) {
      assert WordCopied(v, t, q, e, j);
      assert OutsideWord(s, v, fd, 1, nr, q, j);
    }
  }

  lemma FirstSlotStays(s: State, v: State, t: State, fd: nat, td: nat, n: nat, nr: nat)
    requires n > 0 && ForkRange(fd, td, n) && nr == Copied(fd)
    requires SlotCopied(s, v, fd, td, nr) && OutsideKept(v, t, fd + 1, td + 1, n - 1, nr)
    requires !v.phys[0][td].present ==> !t.phys[0][td].present
    ensures SlotCopied(s, t, fd, td, nr)
  {
    if s.phys[0][fd].present {
      forall j: nat | j < ENTRIES ensures Entry(t.phys, td, j) == Entry(v.phys, td, j) && t.phys[0][td] == v.phys[0][td] {
        assert OutsideWord(v, t, fd + 1, n - 1, nr, td, j);
      }
      assert t.phys[0][td] == v.phys[0][td] by { assert OutsideWord(v, t, fd + 1, n - 1, nr, td, 0); }
      forall j: nat | j < nr ensures WordCopied(s, t, fd, td, j) {
        assert WordCopied(s, v, fd, td, j);
      }
    }
  }

  lemma ForkWords(s: State, fd: nat, td: nat, n: nat)
    requires Inv(s) && ForkRange(fd, td, n) && Empty(s, td, n) && Fork(s, fd, td, n).1
    ensures var t := Fork(s, fd, td, n).0;
      && OutsideKept(s, t, fd, td, n, Copied(fd))
      && forall q: nat, e: nat | td <= e < td + n && q == e - td + fd :: SlotCopied(s, t, q, e, Copied(fd))
  {
    TableWords(s, fd, td, n, Copied(fd));
  }
}
