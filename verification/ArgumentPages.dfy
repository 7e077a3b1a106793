/** The argument image of fs/exec.c on values: strings packed into pages, pointer tables over
    them, and what a program following the tables reads. */
module ArgumentPages {

  const PAGE_SIZE: nat := 4096

  type Byte = b: int | 0 <= b < 256

  /** A page pointer: null, or a page's bytes. */
  datatype Page = NoPage | Page(bytes: seq<Byte>)

  predicate PageOk(p: Page) { p.Page? ==> |p.bytes| == PAGE_SIZE }

  ghost predicate PagesOk(pages: seq<Page>) {
    forall i {:trigger PageOk(pages[i])} | 0 <= i < |pages| :: PageOk(pages[i])
  }

  /** The byte at address x; a page that is not there reads as zeros, as on demand. */
  function At(pages: seq<Page>, x: int): Byte {
    if 0 <= x < |pages| * PAGE_SIZE && pages[x / PAGE_SIZE].Page? && |pages[x / PAGE_SIZE].bytes| == PAGE_SIZE
    then pages[x / PAGE_SIZE].bytes[x % PAGE_SIZE] else 0
  }

  predicate Present(pages: seq<Page>, x: int) {
    0 <= x < |pages| * PAGE_SIZE && pages[x / PAGE_SIZE].Page?
  }

  /** The whole of memory, byte by byte. */
  ghost function View(pages: seq<Page>): (v: seq<Byte>)
    ensures |v| == |pages| * PAGE_SIZE
    ensures forall x {:trigger v[x]} | 0 <= x < |v| :: v[x] == At(pages, x)
  {
    seq(|pages| * PAGE_SIZE, x => At(pages, x))
  }

  function ZeroPage(): Page { Page(seq(PAGE_SIZE, _ => 0)) }

  /** Store a byte, in a new zeroed page if there is none. */
  function Poke(pages: seq<Page>, x: nat, b: Byte): (r: seq<Page>)
    requires x < |pages| * PAGE_SIZE && PageOk(pages[x / PAGE_SIZE])
    ensures |r| == |pages|
  {
    var i := x / PAGE_SIZE;
    var p := if pages[i].Page? then pages[i] else ZeroPage();
    pages[i := Page(p.bytes[x % PAGE_SIZE := b])]
  }

  lemma PokeAt(pages: seq<Page>, x: nat, b: Byte)
    requires x < |pages| * PAGE_SIZE && PagesOk(pages)
    ensures PageOk(pages[x / PAGE_SIZE])
    ensures var r := Poke(pages, x, b);
      && PagesOk(r) && Present(r, x) && View(r) == View(pages)[x := b]
      && (forall y: int {:trigger Present(r, y)} :: Present(pages, y) ==> Present(r, y))
  {
    assert PageOk(pages[x / PAGE_SIZE]);
    var r := Poke(pages, x, b);
    forall i | 0 <= i < |r| ensures PageOk(r[i]) {
      assert PageOk(pages[i]);
    }
    forall y: int ensures At(r, y) == if y == x then b else At(pages, y) {
      if 0 <= y < |pages| * PAGE_SIZE {
        assert PageOk(pages[y / PAGE_SIZE]);
        assert y == y / PAGE_SIZE * PAGE_SIZE + y % PAGE_SIZE && x == x / PAGE_SIZE * PAGE_SIZE + x % PAGE_SIZE;
      }
    }
    forall y | 0 <= y < |View(r)| ensures View(r)[y] == View(pages)[x := b][y] {
      assert At(r, y) == if y == x then b else At(pages, y);
    }
  }

  // ---- strings ------------------------------------------------------------------------

  /** The characters of a C string, without its terminator. */
  ghost predicate IsStr(s: seq<Byte>) {
    forall i | 0 <= i < |s| :: s[i] != 0
  }

  ghost predicate AreStrs(args: seq<seq<Byte>>) {
    forall i {:trigger IsStr(args[i])} | 0 <= i < |args| :: IsStr(args[i])
  }

  /** Strings one behind the other, each with its terminator. */
  function Packed(args: seq<seq<Byte>>): seq<Byte> {
    if args == [] then [] else args[0] + [0] + Packed(args[1..])
  }

  /** Where the k-th string starts. */
  function Offset(args: seq<seq<Byte>>, k: nat): nat
    requires k <= |args|
  {
    if k == 0 then 0 else |args[0]| + 1 + Offset(args[1..], k - 1)
  }

  lemma {:induction false} PackedAt(args: seq<seq<Byte>>, k: nat)
    requires k < |args|
    ensures var o := Offset(args, k);
      && o + |args[k]| + 1 == Offset(args, k + 1) <= |Packed(args)|
      && Packed(args)[o..o + |args[k]|] == args[k] && Packed(args)[o + |args[k]|] == 0
    decreases k
  {
    var tail := Packed(args[1..]);
    if k > 0 {
      PackedAt(args[1..], k - 1);
      var o, n := Offset(args[1..], k - 1), |args[0]| + 1;
      assert Packed(args)[n..] == tail;
      assert Packed(args)[n + o..n + o + |args[k]|] == tail[o..o + |args[k]|];
    } else {
      assert Offset(args[1..], 0) == 0;
    }
  }

  lemma {:induction false} OffsetEnd(args: seq<seq<Byte>>)
    ensures Offset(args, |args|) == |Packed(args)| >= |args|
    decreases |args|
  {
    if args != [] {
      OffsetEnd(args[1..]);
    }
  }

  lemma {:induction false} PackedConcat(a: seq<seq<Byte>>, b: seq<seq<Byte>>)
    ensures Packed(a + b) == Packed(a) + Packed(b)
    decreases |a|
  {
    if a == [] {
      assert a + b == b;
    } else {
      assert (a + b)[1..] == a[1..] + b;
      PackedConcat(a[1..], b);
    }
  }

  /** The bytes at p and up are these. */
  ghost predicate Holds(mem: seq<Byte>, p: nat, bytes: seq<Byte>) {
    p + |bytes| <= |mem| && mem[p..p + |bytes|] == bytes
  }

  /** What a program reads at a: the string up to the first zero byte. */
  function ReadStr(mem: seq<Byte>, a: nat): seq<Byte>
    decreases |mem| - a
  {
    if a >= |mem| || mem[a] == 0 then [] else [mem[a]] + ReadStr(mem, a + 1)
  }

  lemma {:induction false} ReadStrIs(mem: seq<Byte>, a: nat, s: seq<Byte>)
    requires IsStr(s) && Holds(mem, a, s + [0])
    ensures ReadStr(mem, a) == s
    decreases |s|
  {
    assert mem[a] == (s + [0])[0];
    if s != [] {
      assert mem[a + 1..a + 1 + |s[1..] + [0]|] == (s + [0])[1..] == s[1..] + [0];
      ReadStrIs(mem, a + 1, s[1..]);
    }
  }

  /** Packed strings at p. */
  ghost predicate Strings(mem: seq<Byte>, p: nat, args: seq<seq<Byte>>) {
    AreStrs(args) && 0 < p && Holds(mem, p, Packed(args))
  }

  lemma SliceOfSlice(mem: seq<Byte>, p: nat, all: seq<Byte>, o: nat, e: nat)
    requires Holds(mem, p, all) && o <= e <= |all|
    ensures mem[p + o..p + e] == all[o..e]
  {
    forall i | 0 <= i < e - o ensures mem[p + o..p + e][i] == all[o..e][i] {
      assert mem[p + o + i] == mem[p..p + |all|][o + i] == all[o + i];
    }
  }

  /** A packed string, read through a pointer to its start. */
  lemma ReadPacked(mem: seq<Byte>, p: nat, args: seq<seq<Byte>>, k: nat)
    requires Strings(mem, p, args) && k < |args|
    ensures ReadStr(mem, p + Offset(args, k)) == args[k]
    ensures p + Offset(args, k + 1) <= |mem| && Holds(mem, p + Offset(args, k), args[k] + [0])
  {
    PackedAt(args, k);
    var o, s, all := Offset(args, k), args[k], Packed(args);
    var e := o + |s| + 1;
    assert IsStr(s);
    assert all[o..e] == s + [0] by { assert all[o..e] == all[o..o + |s|] + [all[o + |s|]]; }
    SliceOfSlice(mem, p, all, o, e);
    assert p + o + |s + [0]| == p + e;
    ReadStrIs(mem, p + o, s);
  }

  // ---- pointers -----------------------------------------------------------------------

  const LIMIT: nat := 0x1_0000_0000

  /** A little-endian long. */
  function LongAt(mem: seq<Byte>, a: nat): nat
    requires a + 4 <= |mem|
  {
    mem[a] as int + 256 * mem[a + 1] as int + 65536 * mem[a + 2] as int + 16777216 * mem[a + 3] as int
  }

  function ByteOf(v: nat, k: nat): Byte
    requires k < 4
  {
    if k == 0 then v % 256 else if k == 1 then v / 256 % 256 else if k == 2 then v / 65536 % 256 else v / 16777216 % 256
  }

  /** put_fs_long. */
  function PutLong(mem: seq<Byte>, a: nat, v: nat): (r: seq<Byte>)
    requires a + 4 <= |mem|
    ensures |r| == |mem| && forall x {:trigger r[x]} | 0 <= x < |mem| && !(a <= x < a + 4) :: r[x] == mem[x]
  {
    mem[a := ByteOf(v, 0)][a + 1 := ByteOf(v, 1)][a + 2 := ByteOf(v, 2)][a + 3 := ByteOf(v, 3)]
  }

  lemma FourBytes(v: nat)
    requires v < LIMIT
    ensures ByteOf(v, 0) + 256 * ByteOf(v, 1) + 65536 * ByteOf(v, 2) + 16777216 * ByteOf(v, 3) == v
  {
    var h := v / 256;
    assert v == h * 256 + v % 256;
    var g := h / 256;
    assert h == g * 256 + h % 256 && g == v / 65536;
    assert g == g / 256 * 256 + g % 256 && g / 256 == v / 16777216 < 256;
  }

  function Four(v: nat): (f: seq<Byte>)
    ensures |f| == 4
  {
    [ByteOf(v, 0), ByteOf(v, 1), ByteOf(v, 2), ByteOf(v, 3)]
  }

  /** Longs one behind the other. */
  function Longs(words: seq<nat>): (l: seq<Byte>)
    ensures |l| == 4 * |words|
    ensures forall i {:trigger l[i]} | 0 <= i < |l| :: l[i] == ByteOf(words[i / 4], i % 4)
  {
    seq(4 * |words|, i requires 0 <= i < 4 * |words| => ByteOf(words[i / 4], i % 4))
  }

  lemma LongsAt(words: seq<nat>, k: nat)
    requires k < |words|
    ensures Longs(words)[4 * k..4 * k + 4] == Four(words[k])
  {
    var l := Longs(words);
    assert l[4 * k] == ByteOf(words[k], 0) && l[4 * k + 1] == ByteOf(words[k], 1);
    assert l[4 * k + 2] == ByteOf(words[k], 2) && l[4 * k + 3] == ByteOf(words[k], 3);
  }

  lemma LongsMore(words: seq<nat>, v: nat)
    ensures Longs(words + [v]) == Longs(words) + Four(v)
  {
    var l, m := Longs(words), Longs(words + [v]);
    LongsAt(words + [v], |words|);
    forall i | 0 <= i < |l| ensures m[i] == l[i] {
      assert (words + [v])[i / 4] == words[i / 4];
    }
    assert m == m[..|l|] + m[|l|..|l| + 4];
  }

  /** A long reads back as written. */
  lemma ReadLong(mem: seq<Byte>, sp: nat, words: seq<nat>, k: nat)
    requires Holds(mem, sp, Longs(words)) && k < |words| && words[k] < LIMIT
    ensures sp + 4 * k + 4 <= |mem| && LongAt(mem, sp + 4 * k) == words[k]
  {
    LongsAt(words, k);
    HoldsPart(mem, sp, Longs(words), 4 * k, Four(words[k]));
    FourIsLong(mem, sp + 4 * k, words[k]);
  }

  lemma HoldsPart(mem: seq<Byte>, sp: nat, l: seq<Byte>, a: nat, f: seq<Byte>)
    requires Holds(mem, sp, l) && a + |f| <= |l| && l[a..a + |f|] == f
    ensures Holds(mem, sp + a, f)
  {
    SliceOfSlice(mem, sp, l, a, a + |f|);
  }

  lemma FourIsLong(mem: seq<Byte>, a: nat, v: nat)
    requires Holds(mem, a, Four(v)) && v < LIMIT
    ensures LongAt(mem, a) == v
  {
    FourBytes(v);
    var g := mem[a..a + 4];
    assert g[0] == mem[a] && g[1] == mem[a + 1] && g[2] == mem[a + 2] && g[3] == mem[a + 3];
  }

  /** Memory m with these longs at sp. */
  function Pushed(m: seq<Byte>, sp: nat, words: seq<nat>): (r: seq<Byte>)
    requires sp + 4 * |words| <= |m|
    ensures |r| == |m|
  {
    m[..sp] + Longs(words) + m[sp + 4 * |words|..]
  }

  /** put_fs_long behind them makes one more. */
  lemma PushOne(m: seq<Byte>, sp: nat, words: seq<nat>, v: nat)
    requires sp + 4 * |words| + 4 <= |m|
    ensures PutLong(Pushed(m, sp, words), sp + 4 * |words|, v) == Pushed(m, sp, words + [v])
  {
    LongsMore(words, v);
    PutIs(m[..sp] + Longs(words), m[sp + 4 * |words|..], v);
  }

  lemma PutIs(a: seq<Byte>, b: seq<Byte>, v: nat)
    requires |b| >= 4
    ensures PutLong(a + b, |a|, v) == a + Four(v) + b[4..]
  {
  }

  lemma PushedHolds(m: seq<Byte>, sp: nat, words: seq<nat>, p: nat, bytes: seq<Byte>)
    requires sp + 4 * |words| <= p && Holds(m, p, bytes)
    ensures Holds(Pushed(m, sp, words), p, bytes) && Holds(Pushed(m, sp, words), sp, Longs(words))
  {
    var l, h := Longs(words), sp + 4 * |words|;
    HoldsMiddle(m[..sp], l, m[h..]);
    HoldsDrop(m, h, p, bytes);
    HoldsLast(m[..sp], l, m[h..], p, bytes);
  }

  lemma HoldsMiddle(a: seq<Byte>, b: seq<Byte>, c: seq<Byte>)
    ensures Holds(a + b + c, |a|, b)
  {
  }

  lemma HoldsLast(a: seq<Byte>, b: seq<Byte>, c: seq<Byte>, p: nat, x: seq<Byte>)
    requires |a| + |b| <= p && Holds(c, p - |a| - |b|, x)
    ensures Holds(a + b + c, p, x)
  {
    assert (a + b + c)[p..p + |x|] == c[p - |a| - |b|..p - |a| - |b| + |x|];
  }

  lemma HoldsDrop(m: seq<Byte>, h: nat, p: nat, x: seq<Byte>)
    requires Holds(m, p, x) && h <= p
    ensures Holds(m[h..], p - h, x)
  {
    assert m[h..][p - h..p - h + |x|] == m[p..p + |x|];
  }

  /** What a program finds behind a table of pointers: the strings, up to the null pointer. */
  function ReadTable(mem: seq<Byte>, t: nat): seq<seq<Byte>>
    decreases |mem| - t
  {
    if t + 4 > |mem| || LongAt(mem, t) == 0 then []
    else [ReadStr(mem, LongAt(mem, t))] + ReadTable(mem, t + 4)
  }

  ghost predicate WordAt(mem: seq<Byte>, sp: nat, words: seq<nat>, k: nat)
    requires k < |words|
  {
    sp + 4 * k + 4 <= |mem| && LongAt(mem, sp + 4 * k) == words[k]
  }

  /** These words are in memory at sp. */
  ghost predicate Words(mem: seq<Byte>, sp: nat, words: seq<nat>) {
    forall k: nat {:trigger WordAt(mem, sp, words, k)} | k < |words| :: WordAt(mem, sp, words, k)
  }

  lemma WordsRead(mem: seq<Byte>, sp: nat, words: seq<nat>)
    requires Holds(mem, sp, Longs(words)) && forall k {:trigger words[k]} | 0 <= k < |words| :: words[k] < LIMIT
    ensures Words(mem, sp, words)
  {
    forall k: nat | k < |words| ensures WordAt(mem, sp, words, k) {
      ReadLong(mem, sp, words, k);
    }
  }

  /** Pointers to n strings, from the from-th on, of those packed at p. */
  function Pointers(p: nat, args: seq<seq<Byte>>, from: nat, n: nat): (t: seq<nat>)
    requires from + n <= |args|
    ensures |t| == n && forall k: nat {:trigger t[k]} | k < n :: t[k] == p + Offset(args, from + k)
  {
    if n == 0 then [] else Pointers(p, args, from, n - 1) + [p + Offset(args, from + n - 1)]
  }

  predicate Pointer(words: seq<nat>, j: nat, p: nat, args: seq<seq<Byte>>, from: nat, k: nat) {
    from + k <= |args| && j + k < |words| && words[j + k] == p + Offset(args, from + k)
  }

  /** From the j-th word on, pointers to n strings and a null pointer. */
  ghost predicate Table(words: seq<nat>, j: nat, p: nat, args: seq<seq<Byte>>, from: nat, n: nat) {
    && from + n <= |args| && j + n < |words| && words[j + n] == 0
    && forall k: nat {:trigger Pointer(words, j, p, args, from, k)} | k < n :: Pointer(words, j, p, args, from, k)
  }

  lemma TableTail(words: seq<nat>, j: nat, p: nat, args: seq<seq<Byte>>, from: nat, n: nat)
    requires Table(words, j, p, args, from, n) && n > 0
    ensures Pointer(words, j, p, args, from, 0) && Table(words, j + 1, p, args, from + 1, n - 1)
  {
    var i, f, m := j + 1, from + 1, n - 1;
    forall k: nat | k < m ensures Pointer(words, i, p, args, f, k) {
      assert Pointer(words, j, p, args, from, k + 1);
    }
  }

  /** Such a table reads as its strings. */
  lemma {:induction false} ReadTableIs(mem: seq<Byte>, sp: nat, words: seq<nat>, j: nat, p: nat, args: seq<seq<Byte>>, from: nat, n: nat)
    requires Strings(mem, p, args) && Words(mem, sp, words) && Table(words, j, p, args, from, n)
    ensures ReadTable(mem, sp + 4 * j) == args[from..from + n]
    decreases n
  {
    assert WordAt(mem, sp, words, j);
    if n > 0 {
      TableTail(words, j, p, args, from, n);
      ReadEntry(mem, sp + 4 * j, p, args, from);
      ReadTableIs(mem, sp, words, j + 1, p, args, from + 1, n - 1);
      assert sp + 4 * (j + 1) == sp + 4 * j + 4;
      assert args[from..from + n] == [args[from]] + args[from + 1..from + n];
    }
  }

  lemma ReadEntry(mem: seq<Byte>, t: nat, p: nat, args: seq<seq<Byte>>, from: nat)
    requires Strings(mem, p, args) && from < |args| && t + 4 <= |mem| && LongAt(mem, t) == p + Offset(args, from)
    ensures ReadTable(mem, t) == [args[from]] + ReadTable(mem, t + 4)
  {
    ReadPacked(mem, p, args, from);
  }
}
