/** copy_strings, change_ldt's page placement and create_tables of fs/exec.c in their own
    form, and the round trip of a program's arguments through them. */
module Exec {
  import opened ArgumentPages

  const MAX_ARG_PAGES: nat := 32
  const START: nat := 131068
  /** Pages of the new data segment, 64 MB. */
  const DATA_PAGES: nat := 16384

  /** copy_strings' result: the new p; 0, no page to be had; or, since the test for it is
      made on an unsigned number and never true, an access past the end of the page table:
      p / PAGE_SIZE is 0xFFFFF there. */
  datatype Copied = At(p: nat) | NoMemory | Overrun

  /** The argument pages and how many pages get_free_page still has. */
  class ArgumentImage {
    const page: array<Page>
    var supply: nat

    ghost predicate Valid()
      reads this, page
    {
      page.Length == MAX_ARG_PAGES && PagesOk(page[..])
    }

    constructor (supply: nat)
      ensures Valid() && fresh(page) && this.supply == supply && forall i | 0 <= i < MAX_ARG_PAGES :: page[i] == NoPage
    {
      page := new Page[MAX_ARG_PAGES](_ => NoPage);
      this.supply := supply;
    }

    /** The page for address p, got from get_free_page if there is none yet. */
    method NeedPage(p: nat) returns (ok: bool)
      requires Valid() && p < MAX_ARG_PAGES * PAGE_SIZE
      modifies this, page
      ensures Valid() && View(page[..]) == old(View(page[..]))
      ensures ok ==> page[p / PAGE_SIZE].Page?
      ensures supply + Used(page[..]) == old(supply + Used(page[..]))
      ensures !ok <==> old(supply) == 0 && old(page[p / PAGE_SIZE]).NoPage?
      ensures !ok ==> supply == 0 && page[..] == old(page[..])
      ensures forall j {:trigger page[j]} | 0 <= j < MAX_ARG_PAGES :: page[j].Page? <==> old(page[j]).Page? || (ok && j == p / PAGE_SIZE)
    {
      var i := p / PAGE_SIZE;
      if page[i].NoPage? {
        UsedOne(page[..], i);
        if supply == 0 {
          return false;
        }
        ghost var was := page[..];
        supply := supply - 1;
        page[i] := ZeroPage();
        assert page[..] == was[i := ZeroPage()];
        ZeroView(was, i);
      }
      ok := true;
    }

    method SetByte(i: nat, offset: nat, b: Byte)
      requires Valid() && i < MAX_ARG_PAGES && page[i].Page? && offset < PAGE_SIZE
      modifies page
      ensures Valid() && page[i].Page? && View(page[..]) == old(View(page[..]))[i * PAGE_SIZE + offset := b]
      ensures Used(page[..]) == old(Used(page[..]))
      ensures forall j {:trigger page[j]} | 0 <= j < MAX_ARG_PAGES :: page[j].Page? <==> old(page[j]).Page?
    {
      var x := i * PAGE_SIZE + offset;
      assert x / PAGE_SIZE == i && x % PAGE_SIZE == offset;
      PokeAt(page[..], x, b);
      UsedOne(page[..], i);
      page[i] := Page(page[i].bytes[offset := b]);
      assert page[..] == Poke(old(page[..]), x, b);
    }

    /** The length counted up to the zero byte, that included. */
    static method Length(tmp: seq<Byte>, ghost s: seq<Byte>) returns (len: nat)
      requires IsStr(s) && tmp == s + [0]
      ensures len == |tmp|
    {
      len := 0;
      while len == 0 || tmp[len - 1] != 0
        invariant 0 <= len <= |tmp|
        decreases |tmp| - len
      {
        len := len + 1;
      }
    }

    /** One string, with its terminator, copied backwards to end at p. */
    method CopyString(s: seq<Byte>, p: nat, offset: nat, pag: nat, start: bool) returns (r: Copied, o: nat, g: nat)
      requires Valid() && IsStr(s) && p <= START && InPage(page[..], p, offset, pag, start)
      modifies this, page
      ensures Valid() && (r.NoMemory? || (r.Overrun? <==> |s| + 1 > p))
      ensures supply + Used(page[..]) == old(supply + Used(page[..]))
      ensures old(Tight(page[..], p)) ==>
        (r.NoMemory? <==> supply + Used(page[..]) < Top(if |s| + 1 <= p then p - |s| - 1 else 0)) && (r.At? ==> Tight(page[..], r.p))
      ensures r.At? ==> r.p == p - |s| - 1 && InPage(page[..], r.p, o, g, false)
      ensures r.At? ==> View(page[..]) == old(View(page[..]))[..r.p] + s + [0] + old(View(page[..]))[p..]
    {
      var tmp := s + [0];
      var len := Length(tmp, s);
      ghost var view := View(page[..]);
      r, o, g := CopyBytes(tmp, p, offset, pag, start);
      if r.At? {
        FilledString(view, r.p, s, tmp, p);
      }
    }

    /** The inner loop, from the last byte to the first. */
    method CopyBytes(tmp: seq<Byte>, p: nat, offset: nat, pag: nat, start: bool) returns (r: Copied, o: nat, g: nat)
      requires Valid() && tmp != [] && p <= START && InPage(page[..], p, offset, pag, start)
      modifies this, page
      ensures Valid() && (r.NoMemory? || (r.Overrun? <==> |tmp| > p))
      ensures supply + Used(page[..]) == old(supply + Used(page[..]))
      ensures old(Tight(page[..], p)) ==>
        (r.NoMemory? <==> supply + Used(page[..]) < Top(if |tmp| <= p then p - |tmp| else 0)) && (r.At? ==> Tight(page[..], r.p))
      ensures r.At? ==> r.p == p - |tmp| && InPage(page[..], r.p, o, g, false) && View(page[..]) == Filled(old(View(page[..])), r.p, tmp, p)
    {
      ghost var view, low, tight := View(page[..]), if |tmp| <= p then p - |tmp| else 0, Tight(page[..], p);
      var len, q, first := |tmp|, p, start;
      o, g := offset, pag;
      assert view == Filled(view, q, [], p) && tmp[len..] == [];
      while len > 0
        invariant Valid() && 0 <= len <= |tmp| && 0 <= q == p - (|tmp| - len)
        invariant InPage(page[..], q, o, g, first) && (len < |tmp| ==> !first)
        invariant supply + Used(page[..]) == old(supply + Used(page[..]))
        invariant View(page[..]) == Filled(view, q, tmp[len..], p)
        invariant tight ==> Tight(page[..], q)
      {
        if q == 0 {
          UsedTopIf(page[..], q);
          return Overrun, 0, 0;
        }
        len := len - 1;
        FillOne(view, q, tmp, len, p);
        var ok;
        ok, o, g := PutBefore(q, o, g, first, tmp[len]);
        if !ok {
          ShortAtIf(page[..], q, low);
          return NoMemory, 0, 0;
        }
        q, first := q - 1, false;
      }
      UsedTopIf(page[..], q);
      assert tmp[0..] == tmp;
      r := Copied.At(q);
    }

    /** One round of the inner loop: the byte below q. */
    method PutBefore(q: nat, offset: nat, pag: nat, start: bool, b: Byte) returns (ok: bool, o: nat, g: nat)
      requires Valid() && 0 < q <= START && InPage(page[..], q, offset, pag, start)
      modifies this, page
      ensures Valid() && supply + Used(page[..]) == old(supply + Used(page[..]))
      ensures !ok <==> old(supply) == 0 && old(page[(q - 1) / PAGE_SIZE]).NoPage?
      ensures !ok ==> supply == 0 && page[..] == old(page[..])
      ensures forall j {:trigger page[j]} | 0 <= j < MAX_ARG_PAGES :: page[j].Page? <==> old(page[j]).Page? || (ok && j == (q - 1) / PAGE_SIZE)
      ensures ok ==> InPage(page[..], q - 1, o, g, false) && View(page[..]) == old(View(page[..]))[q - 1 := b]
    {
      ok, o, g := true, offset, pag;
      if o == 0 {
        o, g := (q - 1) % PAGE_SIZE, (q - 1) / PAGE_SIZE;
        ok := NeedPage(q - 1);
        if !ok {
          return;
        }
      } else {
        o := o - 1;
      }
      assert q - 1 == g * PAGE_SIZE + o;
      SetByte(g, o, b);
    }

    /** copy_strings, from the last string to the first. */
    method CopyStrings(args: seq<seq<Byte>>, p: nat) returns (r: Copied)
      requires Valid() && AreStrs(args) && p <= START
      modifies this, page
      ensures Valid() && supply + Used(page[..]) == old(supply + Used(page[..]))
      ensures p == 0 ==> r == Copied.At(0)
      ensures p > 0 ==> r.NoMemory? || (r.Overrun? <==> |Packed(args)| > p)
      ensures p == 0 ==> page[..] == old(page[..])
      ensures p > 0 && old(Tight(page[..], p)) ==>
        (r.NoMemory? <==> supply + Used(page[..]) < Top(if |Packed(args)| <= p then p - |Packed(args)| else 0)) && (r.At? ==> Tight(page[..], r.p))
      ensures p > 0 && r.At? ==> r.p == p - |Packed(args)|
      ensures p > 0 && r.At? ==> View(page[..]) == old(View(page[..]))[..r.p] + Packed(args) + old(View(page[..]))[p..]
    {
      if p == 0 {
        return Copied.At(0);
      }
      var argc, q, offset, pag, first := |args|, p, 0, 0, true;
      ghost var view := View(page[..]);
      ghost var tight := Tight(page[..], p);
      if tight { UsedTop(page[..], p); }
      assert args[argc..] == [] && view == view[..p] + [] + view[p..];
      while argc > 0
        invariant Valid() && argc <= |args| && 0 <= q <= p && q == p - |Packed(args[argc..])|
        invariant InPage(page[..], q, offset, pag, first)
        invariant supply + Used(page[..]) == old(supply + Used(page[..]))
        invariant View(page[..]) == view[..q] + Packed(args[argc..]) + view[p..]
        invariant tight ==> Tight(page[..], q) && supply + Used(page[..]) >= Top(q)
      {
        argc := argc - 1;
        var s := args[argc];
        assert args[argc..][1..] == args[argc + 1..] && IsStr(args[argc]);
        assert Packed(args[argc..]) == s + [0] + Packed(args[argc + 1..]);
        SuffixSize(args, argc);
        var one, o, g := CopyString(s, q, offset, pag, first);
        if !one.At? {
          return one;
        }
        if tight { UsedTop(page[..], one.p); }
        Glue(view, one.p, q, p, s, Packed(args[argc + 1..]));
        q, offset, pag, first := one.p, o, g, false;
      }
      assert args[0..] == args;
      r := Copied.At(q);
    }
  }

  /** The new program's data segment, page by page; missing pages are zero on demand. */
  class UserSpace {
    const pages: array<Page>

    ghost predicate Valid()
      reads this, pages
    {
      pages.Length == DATA_PAGES && PagesOk(pages[..])
    }

    ghost function Mem(): (m: seq<Byte>)
      requires Valid()
      reads this, pages
      ensures |m| == DATA_PAGES * PAGE_SIZE
    {
      View(pages[..])
    }

    /** change_ldt: the argument pages at the top of an otherwise empty segment. */
    constructor (page: array<Page>)
      requires page.Length == MAX_ARG_PAGES && PagesOk(page[..])
      ensures Valid() && fresh(pages)
      ensures Mem()[(DATA_PAGES - MAX_ARG_PAGES) * PAGE_SIZE..] == View(page[..])
    {
      pages := new Page[DATA_PAGES](_ => NoPage);
      new;
      var i, base := MAX_ARG_PAGES, DATA_PAGES;
      while i > 0
        invariant 0 <= i <= MAX_ARG_PAGES && base == DATA_PAGES - MAX_ARG_PAGES + i && fresh(pages)
        invariant pages.Length == DATA_PAGES && PagesOk(pages[..])
        invariant forall k {:trigger page[k]} | i <= k < MAX_ARG_PAGES :: pages[DATA_PAGES - MAX_ARG_PAGES + k] == page[k]
        invariant forall k | 0 <= k < base :: pages[k] == NoPage
      {
        i := i - 1;
        base := base - 1;
        if page[i].Page? {
          assert PageOk(page[..][i]);
          ghost var was := pages[..];
          pages[base] := page[i];
          assert pages[..] == was[base := page[i]];
          forall k | 0 <= k < DATA_PAGES ensures PageOk(pages[..][k]) {
            assert PageOk(was[k]);
          }
        }
      }
      SameView(page[..], pages[..]);
    }

    method GetByte(a: nat) returns (b: Byte)
      requires Valid() && a < |Mem()|
      ensures b == Mem()[a]
    {
      var p := pages[a / PAGE_SIZE];
      assert PageOk(pages[..][a / PAGE_SIZE]);
      b := if p.Page? then p.bytes[a % PAGE_SIZE] else 0;
    }

    method PutByte(a: nat, b: Byte)
      requires Valid() && a < |Mem()|
      modifies pages
      ensures Valid() && Mem() == old(Mem())[a := b]
    {
      PokeAt(pages[..], a, b);
      var p := pages[a / PAGE_SIZE];
      if p.NoPage? {
        p := ZeroPage();
      }
      pages[a / PAGE_SIZE] := Page(p.bytes[a % PAGE_SIZE := b]);
      assert pages[..] == Poke(old(pages[..]), a, b);
    }

    method PutFsLong(v: nat, a: nat)
      requires Valid() && a + 4 <= |Mem()|
      modifies pages
      ensures Valid() && Mem() == PutLong(old(Mem()), a, v)
    {
      PutByte(a, ByteOf(v, 0));
      PutByte(a + 1, ByteOf(v, 1));
      PutByte(a + 2, ByteOf(v, 2));
      PutByte(a + 3, ByteOf(v, 3));
    }

    /** create_tables' two loops: behind the words already pushed, n pointers and a null;
        p goes from string to string. */
    method FillTable(t: nat, p: nat, n: nat, ghost m: seq<Byte>, ghost sp: nat, ghost words: seq<nat>,
                     ghost base: nat, ghost args: seq<seq<Byte>>, ghost from: nat)
      returns (q: nat)
      requires Valid() && |m| == |Mem()| && Strings(m, base, args) && from + n <= |args| && p == base + Offset(args, from)
      requires t == sp + 4 * |words| && t + 4 * n + 4 <= base && Mem() == Pushed(m, sp, words)
      modifies pages
      ensures Valid() && q == base + Offset(args, from + n)
      ensures Mem() == Pushed(m, sp, words + Pointers(base, args, from, n) + [0])
    {
      q := FillPointers(t, p, n, m, sp, words, base, args, from);
      PutWord(t + 4 * n, 0, m, sp, words + Pointers(base, args, from, n));
    }

    method FillPointers(t: nat, p: nat, n: nat, ghost m: seq<Byte>, ghost sp: nat, ghost words: seq<nat>,
                        ghost base: nat, ghost args: seq<seq<Byte>>, ghost from: nat)
      returns (q: nat)
      requires Valid() && |m| == |Mem()| && Strings(m, base, args) && from + n <= |args| && p == base + Offset(args, from)
      requires t == sp + 4 * |words| && t + 4 * n <= base && Mem() == Pushed(m, sp, words)
      modifies pages
      ensures Valid() && |m| == |Mem()| && q == base + Offset(args, from + n)
      ensures Mem() == Pushed(m, sp, words + Pointers(base, args, from, n))
    {
      q := p;
      var i, a := 0, t;
      ghost var w := words;
      while i < n
        invariant i <= n && a == sp + 4 * |w| && |w| == |words| + i && q == base + Offset(args, from + i)
        invariant w == Extended(words, base, args, from, i) && Valid() && Mem() == Pushed(m, sp, w)
      {
        q, w := PutPointer(a, q, m, sp, w, base, args, from + i);
        a := a + 4;
        i := i + 1;
      }
      ExtendedIs(words, base, args, from, n);
    }

    method PutWord(a: nat, v: nat, ghost m: seq<Byte>, ghost sp: nat, ghost words: seq<nat>)
      requires Valid() && |m| == |Mem()| && a == sp + 4 * |words| && a + 4 <= |m| && Mem() == Pushed(m, sp, words)
      modifies pages
      ensures Valid() && Mem() == Pushed(m, sp, words + [v])
    {
      PushOne(m, sp, words, v);
      PutFsLong(v, a);
    }

    /** One round: the pointer to string k at a, and on to the next string. */
    method PutPointer(a: nat, p: nat, ghost m: seq<Byte>, ghost sp: nat, ghost words: seq<nat>,
                      ghost base: nat, ghost args: seq<seq<Byte>>, ghost k: nat)
      returns (q: nat, ghost w: seq<nat>)
      requires Valid() && |m| == |Mem()| && Strings(m, base, args) && k < |args| && p == base + Offset(args, k)
      requires a == sp + 4 * |words| && a + 4 <= base && Mem() == Pushed(m, sp, words)
      modifies pages
      ensures Valid() && q == base + Offset(args, k + 1) && w == words + [p] && Mem() == Pushed(m, sp, w)
    {
      w := words + [p];
      PutWord(a, p, m, sp, words);
      StringAt(m, sp, words + [p], base, args, k);
      q := SkipString(p, args[k]);
    }

    /** while (get_fs_byte(p++)) */
    method SkipString(p: nat, ghost s: seq<Byte>) returns (q: nat)
      requires Valid() && IsStr(s) && Holds(Mem(), p, s + [0])
      ensures q == p + |s| + 1
    {
      q := p;
      ghost var m := s + [0];
      var b := 1;
      while b != 0
        invariant p <= q <= p + |m| && (b != 0 ==> q <= p + |s|) && (b == 0 ==> q == p + |m|)
        decreases p + |m| - q + if b != 0 then 1 else 0
      {
        assert Mem()[q] == Mem()[p..p + |m|][q - p] == m[q - p];
        b := GetByte(q);
        q := q + 1;
      }
    }

    /** create_tables, for strings that are packed at p; argc and envc of them. */
    method CreateTables(p: nat, argc: nat, envc: nat, ghost args: seq<seq<Byte>>) returns (sp: nat)
      requires Valid() && Strings(Mem(), p, args) && argc + envc <= |args|
      requires 4 * (argc + envc + 5) <= p / 4 * 4
      modifies pages
      ensures Valid() && Strings(Mem(), p, args)
      ensures sp + 4 * (argc + envc + 5) == p / 4 * 4
      ensures Mem() == Pushed(old(Mem()), sp, StackWords(sp, p, args, argc, envc))
    {
      sp := TablesBelow(p / 4 * 4, p, argc, envc, args);
    }

    /** Room for envp, room for argv, the header, and the two tables. */
    method TablesBelow(top: nat, p: nat, argc: nat, envc: nat, ghost args: seq<seq<Byte>>) returns (sp: nat)
      requires Valid() && Strings(Mem(), p, args) && argc + envc <= |args|
      requires 4 * (argc + envc + 5) <= top <= p
      modifies pages
      ensures Valid() && Strings(Mem(), p, args) && sp + 4 * (argc + envc + 5) == top
      ensures Mem() == Pushed(old(Mem()), sp, StackWords(sp, p, args, argc, envc))
    {
      ghost var m := Mem();
      sp := top - 4 * (envc + 1);
      var envp := sp;
      sp := sp - 4 * (argc + 1);
      var argv := sp;
      sp := PutHeader(sp, argc, argv, envp);
      FillTables(argv, envp, p, argc, envc, m, sp, [argc, sp + 12, sp + 16 + 4 * argc], args);
    }

    method FillTables(argv: nat, envp: nat, p: nat, argc: nat, envc: nat,
                      ghost m: seq<Byte>, ghost sp: nat, ghost words: seq<nat>, ghost args: seq<seq<Byte>>)
      requires Valid() && |m| == |Mem()| && Strings(m, p, args) && argc + envc <= |args|
      requires argv == sp + 4 * |words| && envp == argv + 4 * (argc + 1) && envp + 4 * (envc + 1) <= p
      requires Mem() == Pushed(m, sp, words)
      modifies pages
      ensures Valid() && Strings(Mem(), p, args)
      ensures Mem() == Pushed(m, sp, words + Pointers(p, args, 0, argc) + [0] + Pointers(p, args, argc, envc) + [0])
    {
      var q := FillTable(argv, p, argc, m, sp, words, p, args, 0);
      ghost var w := words + Pointers(p, args, 0, argc) + [0];
      q := FillTable(envp, q, envc, m, sp, w, p, args, argc);
      w := w + Pointers(p, args, argc, envc) + [0];
      PushedHolds(m, sp, w, p, Packed(args));
    }

    method PutHeader(top: nat, argc: nat, argv: nat, envp: nat) returns (sp: nat)
      requires Valid() && 12 <= top <= |Mem()|
      modifies pages
      ensures Valid() && sp == top - 12 && Mem() == Pushed(old(Mem()), sp, [argc, argv, envp])
    {
      ghost var m := Mem();
      sp := top - 4;
      PutFsLong(envp, sp);
      sp := sp - 4;
      PutFsLong(argv, sp);
      sp := sp - 4;
      PutFsLong(argc, sp);
      PushThree(m, sp, argc, argv, envp);
    }
  }

  /** Three longs written from the last to the first. */
  lemma PushThree(m: seq<Byte>, sp: nat, a: nat, b: nat, c: nat)
    requires sp + 12 <= |m|
    ensures PutLong(PutLong(PutLong(m, sp + 8, c), sp + 4, b), sp, a) == Pushed(m, sp, [a, b, c])
  {
    PushOne(m, sp, [], a);
    PushOne(m, sp, [a], b);
    PushOne(m, sp, [a, b], c);
    assert [] + [a] == [a] && [a] + [b] == [a, b] && [a, b] + [c] == [a, b, c];
    assert Pushed(m, sp, []) == m;
    PutSwap(m, sp + 4, b, sp + 8, c);
    PutSwap(m, sp, a, sp + 4, b);
    PutSwap(PutLong(m, sp + 4, b), sp, a, sp + 8, c);
  }

  lemma PutSwap(m: seq<Byte>, x: nat, u: nat, y: nat, v: nat)
    requires x + 4 <= y && y + 4 <= |m|
    ensures PutLong(PutLong(m, x, u), y, v) == PutLong(PutLong(m, y, v), x, u)
  {
  }

  /** The words and i pointers behind them. */
  ghost function Extended(words: seq<nat>, p: nat, args: seq<seq<Byte>>, from: nat, i: nat): seq<nat>
    requires from + i <= |args|
  {
    if i == 0 then words else Extended(words, p, args, from, i - 1) + [p + Offset(args, from + i - 1)]
  }

  lemma {:induction false} ExtendedIs(words: seq<nat>, p: nat, args: seq<seq<Byte>>, from: nat, i: nat)
    requires from + i <= |args|
    ensures Extended(words, p, args, from, i) == words + Pointers(p, args, from, i)
    decreases i
  {
    if i > 0 {
      ExtendedIs(words, p, args, from, i - 1);
    } else {
      assert words + [] == words;
    }
  }

  /** A string is still there behind the words pushed below it. */
  lemma StringAt(m: seq<Byte>, sp: nat, words: seq<nat>, p: nat, args: seq<seq<Byte>>, k: nat)
    requires Strings(m, p, args) && k < |args| && sp + 4 * |words| <= p
    ensures IsStr(args[k]) && Holds(Pushed(m, sp, words), p + Offset(args, k), args[k] + [0])
    ensures Offset(args, k + 1) == Offset(args, k) + |args[k]| + 1
  {
    ReadPacked(m, p, args, k);
    PackedAt(args, k);
    PushedHolds(m, sp, words, p + Offset(args, k), args[k] + [0]);
  }

  // ---- do_execve ------------------------------------------------------------------------

  /** What execve is given, and for a #! script what its first line names: the interpreter,
      its base name, and perhaps one argument. */
  datatype Script = NoScript | Script(name: seq<Byte>, arg: seq<seq<Byte>>, filename: seq<Byte>)

  ghost predicate ScriptOk(s: Script) {
    s.Script? ==> IsStr(s.name) && IsStr(s.filename) && |s.arg| <= 1 && AreStrs(s.arg)
  }

  /** The argument strings the program should get. */
  function Wanted(argv: seq<seq<Byte>>, s: Script): seq<seq<Byte>> {
    match s
    case NoScript => argv
    case Script(name, arg, filename) => [name] + arg + [filename] + if argv == [] then [] else argv[1..]
  }

  /** A program started with stack pointer sp finds this count and these two lists. */
  ghost predicate Sees(m: seq<Byte>, sp: nat, argc: nat, args: seq<seq<Byte>>, env: seq<seq<Byte>>) {
    && sp + 12 <= |m| && LongAt(m, sp) == argc
    && ReadTable(m, LongAt(m, sp + 4)) == args && ReadTable(m, LongAt(m, sp + 8)) == env
  }

  /** Three words of header, then the two tables. */
  function StackWords(sp: nat, p: nat, args: seq<seq<Byte>>, argc: nat, envc: nat): seq<nat>
    requires argc + envc <= |args|
  {
    [argc, sp + 12, sp + 16 + 4 * argc] + Pointers(p, args, 0, argc) + [0] + Pointers(p, args, argc, envc) + [0]
  }

  lemma StackWordsAre(sp: nat, p: nat, args: seq<seq<Byte>>, argc: nat, envc: nat)
    requires argc + envc <= |args|
    ensures var w := StackWords(sp, p, args, argc, envc);
      && |w| == argc + envc + 5 && w[0] == argc && w[1] == sp + 12 && w[2] == sp + 4 * (argc + 4)
      && w[3..3 + argc] == Pointers(p, args, 0, argc) && w[3 + argc] == 0
      && w[argc + 4..argc + 4 + envc] == Pointers(p, args, argc, envc) && w[argc + 4 + envc] == 0
  {
  }

  lemma TableFrom(w: seq<nat>, j: nat, p: nat, args: seq<seq<Byte>>, from: nat, n: nat)
    requires from + n <= |args| && j + n < |w| && w[j..j + n] == Pointers(p, args, from, n) && w[j + n] == 0
    requires p + |Packed(args)| < LIMIT
    ensures Table(w, j, p, args, from, n) && forall k {:trigger w[k]} | j <= k <= j + n :: w[k] < LIMIT
  {
    var t := Pointers(p, args, from, n);
    forall k: nat | k < n ensures Pointer(w, j, p, args, from, k) && w[j + k] < LIMIT {
      assert w[j + k] == w[j..j + n][k] == t[k];
      PackedAt(args, from + k);
    }
    forall k | j <= k <= j + n ensures w[k] < LIMIT {
      var i := k - j;
      assert i < n ==> Pointer(w, j, p, args, from, i) && w[j + i] < LIMIT;
    }
  }

  lemma StackWordsTables(sp: nat, p: nat, args: seq<seq<Byte>>, argc: nat, envc: nat)
    requires argc + envc <= |args| && p + |Packed(args)| < LIMIT && sp + 4 * (argc + envc + 5) <= p
    ensures var w := StackWords(sp, p, args, argc, envc);
      && |w| == argc + envc + 5 && w[0] == argc && w[1] == sp + 12 && w[2] == sp + 4 * (argc + 4)
      && Table(w, 3, p, args, 0, argc) && Table(w, argc + 4, p, args, argc, envc)
      && forall k {:trigger w[k]} | 0 <= k < |w| :: w[k] < LIMIT
  {
    var w := StackWords(sp, p, args, argc, envc);
    StackWordsAre(sp, p, args, argc, envc);
    TableFrom(w, 3, p, args, 0, argc);
    TableFrom(w, argc + 4, p, args, argc, envc);
  }

  /** What the new program reads from its stack: the strings, in order, as two lists. */
  lemma StackReads(m: seq<Byte>, r: seq<Byte>, sp: nat, p: nat, args: seq<seq<Byte>>, argc: nat, envc: nat)
    requires Strings(m, p, args) && argc + envc <= |args| && |m| < LIMIT && sp + 4 * (argc + envc + 5) <= p
    requires r == Pushed(m, sp, StackWords(sp, p, args, argc, envc))
    ensures Sees(r, sp, argc, args[..argc], args[argc..argc + envc])
  {
    var w := StackWords(sp, p, args, argc, envc);
    StackWordsTables(sp, p, args, argc, envc);
    PushedHolds(m, sp, w, p, Packed(args));
    WordsRead(r, sp, w);
    TablesRead(r, sp, w, p, args, argc, envc);
  }

  lemma TablesRead(r: seq<Byte>, sp: nat, w: seq<nat>, p: nat, args: seq<seq<Byte>>, argc: nat, envc: nat)
    requires Strings(r, p, args) && Words(r, sp, w) && |w| == argc + envc + 5
    requires w[0] == argc && w[1] == sp + 12 && w[2] == sp + 4 * (argc + 4)
    requires Table(w, 3, p, args, 0, argc) && Table(w, argc + 4, p, args, argc, envc)
    ensures Sees(r, sp, argc, args[..argc], args[argc..argc + envc])
  {
    HeaderRead(r, sp, w);
    ReadTableIs(r, sp, w, 3, p, args, 0, argc);
    ReadTableIs(r, sp, w, argc + 4, p, args, argc, envc);
    assert sp + 4 * 3 == w[1] && args[0..0 + argc] == args[..argc];
  }

  lemma HeaderRead(r: seq<Byte>, sp: nat, w: seq<nat>)
    requires Words(r, sp, w) && |w| >= 3
    ensures sp + 12 <= |r| && LongAt(r, sp) == w[0] && LongAt(r, sp + 4) == w[1] && LongAt(r, sp + 8) == w[2]
  {
    assert WordAt(r, sp, w, 0) && WordAt(r, sp, w, 1) && WordAt(r, sp, w, 2);
    assert sp + 4 * 0 == sp && sp + 4 * 1 == sp + 4 && sp + 4 * 2 == sp + 8;
  }

  /** The count do_execve passes on: one short for a script started without even argv[0]. */
  function FinalArgc(argv: seq<seq<Byte>>, s: Script): nat {
    match s
    case NoScript => |argv|
    case Script(_, arg, _) => |argv| + 1 + |arg|
  }

  /** The strings behind the argument table, and behind the environment's. */
  function Seen(argv: seq<seq<Byte>>, envp: seq<seq<Byte>>, s: Script): (seq<seq<Byte>>, seq<seq<Byte>>) {
    var all, n := Wanted(argv, s) + envp, FinalArgc(argv, s);
    FinalArgcBound(argv, s);
    (all[..n], all[n..n + |envp|])
  }

  lemma FinalArgcBound(argv: seq<seq<Byte>>, s: Script)
    ensures FinalArgc(argv, s) == |Wanted(argv, s)| - if s.Script? && argv == [] then 1 else 0
  {
  }

  /** They are the ones wanted exactly when it is no script or argv[0] was given. */
  lemma SeenIff(argv: seq<seq<Byte>>, envp: seq<seq<Byte>>, s: Script)
    ensures Seen(argv, envp, s) == (Wanted(argv, s), envp) <==> s.NoScript? || argv != []
  {
    FinalArgcBound(argv, s);
    var w, n := Wanted(argv, s), FinalArgc(argv, s);
    assert n == |w| ==> (w + envp)[..n] == w && (w + envp)[n..n + |envp|] == envp;
    assert |Seen(argv, envp, s).0| == n;
  }

  lemma WantedAreStrs(argv: seq<seq<Byte>>, s: Script, envp: seq<seq<Byte>>)
    requires AreStrs(argv) && AreStrs(envp) && ScriptOk(s)
    ensures AreStrs(Wanted(argv, s) + envp)
  {
    var all := Wanted(argv, s) + envp;
    forall i | 0 <= i < |all| ensures IsStr(all[i]) {
      var j := i - |Wanted(argv, s)|;
      if j >= 0 { assert all[i] == envp[j]; }
      else {
        match s
        case NoScript => assert all[i] == argv[i];
        case Script(name, arg, filename) =>
          assert 0 < i <= |arg| ==> all[i] == arg[i - 1];
          assert i > |arg| + 1 ==> all[i] == argv[1..][i - |arg| - 2] == argv[i - |arg| - 1];
      }
    }
  }

  /** Copied so far, ending at START, with `budget` pages to be had in all: the strings `done`;
      or p is 0, exactly if they do not fit below START or there are not pages enough for them. */
  ghost predicate Loaded(pages: seq<Page>, p: nat, done: seq<seq<Byte>>, budget: nat) {
    && p <= START && (p > 0 ==> p == START - |Packed(done)| && Holds(View(pages), p, Packed(done)) && Tight(pages, p))
    && (p == 0 <==> |Packed(done)| >= START || budget < Top(START - |Packed(done)|))
  }

  /** One copy_strings call of do_execve; `lost` is the access past the page table. */
  method Copy(image: ArgumentImage, strs: seq<seq<Byte>>, p: nat, ghost done: seq<seq<Byte>>) returns (q: nat, lost: bool)
    requires image.Valid() && AreStrs(strs)
    requires Loaded(image.page[..], p, done, image.supply + Used(image.page[..]))
    modifies image, image.page
    ensures image.Valid() && image.supply + Used(image.page[..]) == old(image.supply + Used(image.page[..]))
    ensures !lost ==> Loaded(image.page[..], q, strs + done, image.supply + Used(image.page[..]))
    ensures lost ==> |Packed(strs + done)| >= START
  {
    PackedConcat(strs, done);
    ghost var view := View(image.page[..]);
    var r := image.CopyStrings(strs, p);
    q, lost := 0, r.Overrun?;
    if r.At? {
      q := r.p;
      if q > 0 {
        LoadedMore(view, p, q, Packed(strs), Packed(done));
        UsedTop(image.page[..], q);
      }
    }
    ghost var before, after := |Packed(done)|, |Packed(strs + done)|;
    if after < START {
      TopLess(START - before, START - after);
    }
  }

  lemma LoadedMore(view: seq<Byte>, p: nat, q: nat, more: seq<Byte>, done: seq<Byte>)
    requires p <= |view| && q + |more| == p && Holds(view, p, done)
    ensures Holds(view[..q] + more + view[p..], q, more + done)
  {
    var r := view[..q] + more + view[p..];
    HoldsMiddle(view[..q], more, view[p..]);
    HoldsDrop(view, p, p, done);
    HoldsLast(view[..q], more, view[p..], p, done);
    assert r[q..q + |more + done|] == r[q..p] + r[p..p + |done|];
  }

  lemma PackedTail(a: seq<seq<Byte>>, b: seq<seq<Byte>>)
    ensures |Packed(b)| <= |Packed(a + b)|
  {
    PackedConcat(a, b);
  }

  /** do_execve's copying, for a script in the order that puts the interpreter first. */
  method LoadStrings(image: ArgumentImage, argv: seq<seq<Byte>>, envp: seq<seq<Byte>>, s: Script) returns (p: nat, argc: int)
    requires image.Valid() && (forall i | 0 <= i < MAX_ARG_PAGES :: image.page[i] == NoPage) && AreStrs(argv) && AreStrs(envp) && ScriptOk(s)
    modifies image, image.page
    ensures image.Valid() && argc == FinalArgc(argv, s)
    ensures Loaded(image.page[..], p, Wanted(argv, s) + envp, old(image.supply))
  {
    argc := |argv|;
    var lost;
    EmptyUsed(image.page[..]);
    assert Loaded(image.page[..], START, [], image.supply);
    assert envp + [] == envp;
    p, lost := Copy(image, envp, START, []);
    PackedTail(Wanted(argv, s), envp);
    if lost {
      return 0, FinalArgc(argv, s);
    }
    match s
    case NoScript =>
      p, lost := Copy(image, argv, p, envp);
      if lost { p := 0; }
    case Script(name, arg, filename) =>
      argc := argc - 1;
      p := LoadArguments(image, if argc < 0 then [] else argv[1..], name, arg, filename, p, envp);
      argc := argc + 1 + |arg| + 1;
      WantedIs(argv, s, envp);
  }

  lemma WantedIs(argv: seq<seq<Byte>>, s: Script, envp: seq<seq<Byte>>)
    requires s.Script?
    ensures Wanted(argv, s) + envp == [s.name] + s.arg + [s.filename] + ((if argv == [] then [] else argv[1..]) + envp)
  {
  }

  method LoadArguments(image: ArgumentImage, rest: seq<seq<Byte>>, name: seq<Byte>, arg: seq<seq<Byte>>, filename: seq<Byte>,
                       p: nat, ghost envp: seq<seq<Byte>>)
    returns (q: nat)
    requires image.Valid() && AreStrs(rest) && IsStr(name) && IsStr(filename) && |arg| <= 1 && AreStrs(arg)
    requires Loaded(image.page[..], p, envp, image.supply + Used(image.page[..]))
    modifies image, image.page
    ensures image.Valid() && image.supply + Used(image.page[..]) == old(image.supply + Used(image.page[..]))
    ensures Loaded(image.page[..], q, [name] + arg + [filename] + (rest + envp), image.supply + Used(image.page[..]))
  {
    var lost;
    q, lost := Copy(image, rest, p, envp);
    if lost {
      PackedTail([name] + arg + [filename], rest + envp);
      return 0;
    }
    q := LoadScript(image, name, arg, filename, q, rest + envp);
  }

  /** The script's own strings, in front of what is already there. */
  method LoadScript(image: ArgumentImage, name: seq<Byte>, arg: seq<seq<Byte>>, filename: seq<Byte>, p: nat, ghost done: seq<seq<Byte>>)
    returns (q: nat)
    requires image.Valid() && IsStr(name) && IsStr(filename) && |arg| <= 1 && AreStrs(arg)
    requires Loaded(image.page[..], p, done, image.supply + Used(image.page[..]))
    modifies image, image.page
    ensures image.Valid() && image.supply + Used(image.page[..]) == old(image.supply + Used(image.page[..]))
    ensures Loaded(image.page[..], q, [name] + arg + [filename] + done, image.supply + Used(image.page[..]))
  {
    ghost var d1 := [filename] + done;
    ghost var d2 := arg + d1;
    assert [name] + arg + [filename] + done == [name] + d2;
    PackedTail([name], d2);
    PackedTail(arg, d1);
    var lost;
    q, lost := Copy(image, [filename], p, done);
    if !lost && arg != [] {
      q, lost := Copy(image, arg, q, d1);
    }
    if !lost {
      assert arg == [] ==> d2 == d1;
      q, lost := Copy(image, [name], q, d2);
    }
    if lost {
      q := 0;
    }
  }

  /** The stack of a new program. It succeeds exactly when the strings fit; SeenIff says when the
      program finds what it should. */
  method Execve(argv: seq<seq<Byte>>, envp: seq<seq<Byte>>, s: Script, supply: nat) returns (user: UserSpace?, sp: nat)
    requires AreStrs(argv) && AreStrs(envp) && ScriptOk(s)
    ensures user != null ==> fresh(user) && fresh(user.pages) && user.Valid()
    ensures user != null <==> Fits(|Packed(Wanted(argv, s) + envp)|, supply)
    ensures user != null ==> Sees(user.Mem(), sp, FinalArgc(argv, s), Seen(argv, envp, s).0, Seen(argv, envp, s).1)
  {
    var image, p, argc := Load(argv, envp, s, supply);
    if p == 0 {
      return null, 0;
    }
    ghost var all := SeenIs(argv, envp, s);
    user, sp := StartUp(image, p, argc, |envp|, all, Seen(argv, envp, s));
  }

  lemma SeenIs(argv: seq<seq<Byte>>, envp: seq<seq<Byte>>, s: Script) returns (all: seq<seq<Byte>>)
    requires AreStrs(argv) && AreStrs(envp) && ScriptOk(s)
    ensures all == Wanted(argv, s) + envp && AreStrs(all) && FinalArgc(argv, s) + |envp| <= |all|
    ensures Seen(argv, envp, s) == (all[..FinalArgc(argv, s)], all[FinalArgc(argv, s)..FinalArgc(argv, s) + |envp|])
  {
    all := Wanted(argv, s) + envp;
    FinalArgcBound(argv, s);
    WantedAreStrs(argv, s, envp);
  }

  method StartUp(image: ArgumentImage, p: nat, argc: nat, envc: nat, ghost all: seq<seq<Byte>>, ghost seen: (seq<seq<Byte>>, seq<seq<Byte>>))
    returns (user: UserSpace, sp: nat)
    requires image.Valid() && AreStrs(all) && argc + envc <= |all| && seen == (all[..argc], all[argc..argc + envc])
    requires 0 < p && p + |Packed(all)| == START && Holds(View(image.page[..]), p, Packed(all))
    ensures fresh(user) && fresh(user.pages) && user.Valid()
    ensures Sees(user.Mem(), sp, argc, seen.0, seen.1)
  {
    user := new UserSpace(image.page);
    sp := SetUpStack(user, p, argc, envc, all, View(image.page[..]));
  }

  method Load(argv: seq<seq<Byte>>, envp: seq<seq<Byte>>, s: Script, supply: nat) returns (image: ArgumentImage, p: nat, argc: nat)
    requires AreStrs(argv) && AreStrs(envp) && ScriptOk(s)
    ensures fresh(image) && fresh(image.page) && image.Valid() && argc == FinalArgc(argv, s)
    ensures p > 0 <==> Fits(|Packed(Wanted(argv, s) + envp)|, supply)
    ensures p > 0 ==> p + |Packed(Wanted(argv, s) + envp)| == START
    ensures p > 0 ==> Holds(View(image.page[..]), p, Packed(Wanted(argv, s) + envp))
  {
    image := new ArgumentImage(supply);
    p, argc := LoadStrings(image, argv, envp, s);
  }

  /** The strings leave a byte below START and there is a page for each they reach into. */
  ghost predicate Fits(size: nat, supply: nat) {
    size < START && supply >= if size == 0 then 0 else 32 - (131068 - size) / 4096
  }

  /** p is made an address at the top of the data segment, and the tables go below it. */
  method SetUpStack(user: UserSpace, p: nat, argc: nat, envc: nat, ghost all: seq<seq<Byte>>, ghost view: seq<Byte>) returns (sp: nat)
    requires user.Valid() && AreStrs(all) && argc + envc <= |all|
    requires |view| == MAX_ARG_PAGES * PAGE_SIZE && user.Mem()[(DATA_PAGES - MAX_ARG_PAGES) * PAGE_SIZE..] == view
    requires 0 < p <= START && p + |Packed(all)| == START && Holds(view, p, Packed(all))
    modifies user.pages
    ensures user.Valid() && Sees(user.Mem(), sp, argc, all[..argc], all[argc..argc + envc])
  {
    var base := (DATA_PAGES - MAX_ARG_PAGES) * PAGE_SIZE;
    ghost var m := user.Mem();
    HoldsInDrop(m, base, p, Packed(all));
    OffsetEnd(all);
    var q := p + base;
    sp := user.CreateTables(q, argc, envc, all);
    StackReads(m, user.Mem(), sp, q, all, argc, envc);
  }

  lemma HoldsInDrop(m: seq<Byte>, h: nat, p: nat, x: seq<Byte>)
    requires h <= |m| && Holds(m[h..], p, x)
    ensures Holds(m, h + p, x)
  {
    assert m[h..][p..p + |x|] == m[h + p..h + p + |x|];
  }

  lemma {:induction false} EmptyUsed(pages: seq<Page>)
    requires forall i | 0 <= i < |pages| :: pages[i] == NoPage
    ensures Used(pages) == 0
  {
    if pages != [] {
      EmptyUsed(pages[1..]);
    }
  }
  lemma SameView(page: seq<Page>, pages: seq<Page>)
    requires |page| == MAX_ARG_PAGES && |pages| == DATA_PAGES
    requires forall k {:trigger page[k]} | 0 <= k < MAX_ARG_PAGES :: pages[DATA_PAGES - MAX_ARG_PAGES + k] == page[k]
    ensures View(pages)[(DATA_PAGES - MAX_ARG_PAGES) * PAGE_SIZE..] == View(page)
  {
    var base := (DATA_PAGES - MAX_ARG_PAGES) * PAGE_SIZE;
    forall x | 0 <= x < |View(page)| ensures View(pages)[base + x] == View(page)[x] {
      assert (base + x) / PAGE_SIZE == DATA_PAGES - MAX_ARG_PAGES + x / PAGE_SIZE && (base + x) % PAGE_SIZE == x % PAGE_SIZE;
      assert pages[DATA_PAGES - MAX_ARG_PAGES + x / PAGE_SIZE] == page[x / PAGE_SIZE];
    }
  }

  /** copy_strings' offset and pag: nothing yet, or the place of p in the page it is in. */
  predicate InPage(pages: seq<Page>, p: nat, offset: nat, pag: nat, start: bool) {
    if start then offset == 0
    else offset < PAGE_SIZE && pag < |pages| && p == pag * PAGE_SIZE + offset && pages[pag].Page?
  }

  /** The pages there are hold p and everything above it; none before the first byte. */
  ghost predicate Tight(pages: seq<Page>, p: nat) {
    forall i {:trigger pages[i]} | 0 <= i < |pages| :: pages[i].Page? <==> p < START && i >= p / PAGE_SIZE
  }

  /** How many pages that takes. */
  function Top(p: nat): nat { if p < START then MAX_ARG_PAGES - p / PAGE_SIZE else 0 }

  lemma TopLess(p: nat, q: nat)
    requires q <= p <= START
    ensures Top(p) <= Top(q) <= MAX_ARG_PAGES
  {
  }

  lemma UsedTop(pages: seq<Page>, p: nat)
    requires |pages| == MAX_ARG_PAGES && p <= START && Tight(pages, p)
    ensures Used(pages) == Top(p)
  {
    UsedFrom(pages, if p < START then p / PAGE_SIZE else MAX_ARG_PAGES);
  }

  lemma UsedTopIf(pages: seq<Page>, p: nat)
    requires |pages| == MAX_ARG_PAGES && p <= START
    ensures Tight(pages, p) ==> Used(pages) == Top(p)
  {
    if Tight(pages, p) {
      UsedTop(pages, p);
    }
  }

  lemma ShortAtIf(pages: seq<Page>, q: nat, low: nat)
    requires |pages| == MAX_ARG_PAGES && low < q <= START && pages[(q - 1) / PAGE_SIZE].NoPage?
    ensures Tight(pages, q) ==> Used(pages) < Top(low)
  {
    if Tight(pages, q) {
      ShortAt(pages, q, low);
    }
  }

  lemma {:induction false} UsedFrom(pages: seq<Page>, k: nat)
    requires k <= |pages| && forall i {:trigger pages[i]} | 0 <= i < |pages| :: pages[i].Page? <==> i >= k
    ensures Used(pages) == |pages| - k
    decreases |pages|
  {
    if pages != [] {
      UsedFrom(pages[1..], if k > 0 then k - 1 else 0);
    }
  }

  /** Out of pages at q: more were needed to get down to `low`. */
  lemma ShortAt(pages: seq<Page>, q: nat, low: nat)
    requires |pages| == MAX_ARG_PAGES && low < q <= START && Tight(pages, q) && pages[(q - 1) / PAGE_SIZE].NoPage?
    ensures Used(pages) < Top(low)
  {
    UsedTop(pages, q);
    TopLess(q - 1, low);
    assert q < START ==> (q - 1) / PAGE_SIZE < q / PAGE_SIZE;
  }

  lemma {:induction false} SuffixSize(args: seq<seq<Byte>>, k: nat)
    requires k <= |args|
    ensures |Packed(args[k..])| <= |Packed(args)|
    decreases k
  {
    if k > 0 {
      assert args[1..][k - 1..] == args[k..];
      SuffixSize(args[1..], k - 1);
    }
  }

  /** The view with what is between q and p replaced. */
  function Filled(view: seq<Byte>, q: nat, done: seq<Byte>, p: nat): seq<Byte>
    requires q + |done| == p <= |view|
  {
    view[..q] + done + view[p..]
  }

  lemma FilledString(view: seq<Byte>, q: nat, s: seq<Byte>, t: seq<Byte>, p: nat)
    requires q + |t| == p <= |view| && t == s + [0]
    ensures Filled(view, q, t, p) == view[..q] + s + [0] + view[p..]
  {
  }

  lemma FillOne(view: seq<Byte>, q: nat, tmp: seq<Byte>, len: nat, p: nat)
    requires len < |tmp| && 0 < q && q + (|tmp| - len - 1) == p <= |view|
    ensures Filled(view, q, tmp[len + 1..], p)[q - 1 := tmp[len]] == Filled(view, q - 1, tmp[len..], p)
  {
  }

  lemma Glue(view: seq<Byte>, r: nat, q: nat, p: nat, s: seq<Byte>, done: seq<Byte>)
    requires r + |s| + 1 == q <= p <= |view|
    ensures (view[..q] + done + view[p..])[..r] + s + [0] + (view[..q] + done + view[p..])[q..]
      == view[..r] + (s + [0] + done) + view[p..]
  {
  }

  /** Pages there are. */
  function Used(pages: seq<Page>): nat {
    if pages == [] then 0 else (if pages[0].Page? then 1 else 0) + Used(pages[1..])
  }

  lemma {:induction false} UsedBound(pages: seq<Page>)
    ensures Used(pages) <= |pages|
  {
    if pages != [] { UsedBound(pages[1..]); }
  }

  lemma {:induction false} UsedOne(pages: seq<Page>, i: nat)
    requires i < |pages|
    ensures Used(pages) <= |pages| && (pages[i].NoPage? ==> Used(pages) < |pages|)
    ensures forall p: Page {:trigger pages[i := p]} | p.Page? :: Used(pages[i := p]) == Used(pages) + if pages[i].NoPage? then 1 else 0
    decreases i
  {
    if i > 0 {
      UsedOne(pages[1..], i - 1);
    }
    UsedBound(pages[1..]);
    forall p: Page | p.Page? ensures Used(pages[i := p]) == Used(pages) + if pages[i].NoPage? then 1 else 0 {
      if i > 0 {
        assert pages[i := p][1..] == pages[1..][i - 1 := p];
      } else {
        assert pages[i := p][1..] == pages[1..];
      }
    }
  }

  /** A new zero page reads as no page did. */
  lemma ZeroView(pages: seq<Page>, i: nat)
    requires i < |pages| && pages[i].NoPage? && PagesOk(pages)
    ensures PagesOk(pages[i := ZeroPage()]) && View(pages[i := ZeroPage()]) == View(pages)
  {
    var r := pages[i := ZeroPage()];
    forall k | 0 <= k < |r| ensures PageOk(r[k]) {
      assert PageOk(pages[k]);
    }
    forall x | 0 <= x < |View(r)| ensures View(r)[x] == View(pages)[x] {
      assert PageOk(pages[x / PAGE_SIZE]);
    }
  }
}
