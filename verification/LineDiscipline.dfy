/** copy_to_cooked and tty_read of kernel/chr_drv/tty_io.c on values: a line editor over the
    secondary queue, and a count of finished lines that readers wait on. */
module LineDiscipline {

  /** TTY_BUF_SIZE - 1: what a queue holds when full. */
  const CAPACITY: nat := 1023
  const NL: int := 10
  const CR: int := 13

  /** The termios flags and control characters in play. Characters are signed, c_cc is not. */
  datatype Config = Config(crnl: bool, nocr: bool, nlcr: bool, uclc: bool, canon: bool, isig: bool,
                           intr: int, quit: int, erase: int, kill: int, eof: int, start: int, stop: int)

  datatype Signal = Interrupt | Quit

  /** read_q, secondary and its data word, the stopped flag, and the signals sent. */
  datatype State = State(raw: seq<int>, cooked: seq<int>, data: int, stopped: bool, signals: seq<Signal>)

  /** A character that ends a line. */
  predicate Ends(cfg: Config, c: int) { c == NL || c == cfg.eof }

  function Lines(cfg: Config, s: seq<int>): nat {
    if s == [] then 0 else Lines(cfg, s[..|s| - 1]) + if Ends(cfg, s[|s| - 1]) then 1 else 0
  }

  /** secondary.data counts the line ends in the secondary queue. */
  predicate Inv(cfg: Config, s: State) { s.data == Lines(cfg, s.cooked) }

  // ---- copy_to_cooked -------------------------------------------------------------------

  function ToLower(c: int): int { if 65 <= c <= 90 then c + 32 else c }

  predicate Dropped(cfg: Config, c: int) { c == CR && !cfg.crnl && cfg.nocr }

  function Translate(cfg: Config, c: int): int {
    var d := if c == CR && cfg.crnl then NL else if c == NL && cfg.nlcr then CR else c;
    if cfg.uclc then ToLower(d) else d
  }

  /** The kill loop: back to the last line end. */
  function Killed(cfg: Config, s: seq<int>): (r: seq<int>)
    ensures r <= s
  {
    if s == [] || Ends(cfg, s[|s| - 1]) then s else Killed(cfg, s[..|s| - 1])
  }

  function Erased(cfg: Config, s: seq<int>): (r: seq<int>)
    ensures r <= s
  {
    if s == [] || Ends(cfg, s[|s| - 1]) then s else s[..|s| - 1]
  }

  /** What one translated character does. */
  function Edit(cfg: Config, s: State, c: int): State {
    if cfg.canon && c == cfg.kill then s.(cooked := Killed(cfg, s.cooked))
    else if cfg.canon && c == cfg.erase then s.(cooked := Erased(cfg, s.cooked))
    else if cfg.canon && c == cfg.stop then s.(stopped := true)
    else if cfg.canon && c == cfg.start then s.(stopped := false)
    else if cfg.isig && c == cfg.intr then s.(signals := s.signals + [Interrupt])
    else if cfg.isig && c == cfg.quit then s.(signals := s.signals + [Quit])
    else s.(cooked := s.cooked + [c], data := if Ends(cfg, c) then s.data + 1 else s.data)
  }

  /** One round of the loop. */
  function CookOne(cfg: Config, s: State): State
    requires s.raw != []
  {
    var t := s.(raw := s.raw[1..]);
    if Dropped(cfg, s.raw[0]) then t else Edit(cfg, t, Translate(cfg, s.raw[0]))
  }

  function Cook(cfg: Config, s: State): State
    decreases |s.raw|
  {
    if s.raw == [] || |s.cooked| == CAPACITY then s else Cook(cfg, CookOne(cfg, s))
  }

  /** n rounds of the loop, as long as there is something to take. */
  function Rounds(cfg: Config, s: State, n: nat): State
    decreases n
  {
    if n == 0 || s.raw == [] then s else Rounds(cfg, CookOne(cfg, s), n - 1)
  }

  /** copy_to_cooked goes on until nothing is typed any more or the secondary queue is full. */
  lemma {:induction false} CooksAll(cfg: Config, s: State)
    requires |s.cooked| <= CAPACITY
    ensures var t := Cook(cfg, s);
      && (t.raw == [] || |t.cooked| == 1023) && |t.raw| <= |s.raw| && t == Rounds(cfg, s, |s.raw| - |t.raw|)
    decreases |s.raw|
  {
    if s.raw != [] && |s.cooked| < CAPACITY {
      OneMore(cfg, s);
      CooksAll(cfg, CookOne(cfg, s));
    }
  }

  lemma OneMore(cfg: Config, s: State)
    requires s.raw != []
    ensures var t := CookOne(cfg, s); t.raw == s.raw[1..] && |t.cooked| <= |s.cooked| + 1
  {
  }

  /** The finished lines: everything up to the last line end. */
  function Finished(cfg: Config, s: seq<int>): seq<int> { Killed(cfg, s) }

  lemma {:induction false} KilledKeepsLines(cfg: Config, s: seq<int>)
    ensures Lines(cfg, Killed(cfg, s)) == Lines(cfg, s) && Killed(cfg, Killed(cfg, s)) == Killed(cfg, s)
  {
    if s != [] && !Ends(cfg, s[|s| - 1]) {
      KilledKeepsLines(cfg, s[..|s| - 1]);
    }
  }

  lemma ErasedKeepsLines(cfg: Config, s: seq<int>)
    ensures Lines(cfg, Erased(cfg, s)) == Lines(cfg, s) && Killed(cfg, Erased(cfg, s)) == Killed(cfg, s)
  {
  }

  lemma LinesAppend(cfg: Config, s: seq<int>, c: int)
    ensures Lines(cfg, s + [c]) == Lines(cfg, s) + if Ends(cfg, c) then 1 else 0
  {
    assert (s + [c])[..|s + [c]| - 1] == s;
  }

  lemma KilledAppend(cfg: Config, s: seq<int>, c: int)
    ensures Killed(cfg, s + [c]) == if Ends(cfg, c) then s + [c] else Killed(cfg, s)
  {
    assert (s + [c])[..|s + [c]| - 1] == s;
  }

  lemma PrefixAppend(a: seq<int>, s: seq<int>, c: int)
    requires a <= s
    ensures a <= s + [c]
  {
  }

  /** From queue s to queue t the count is still right and every finished line in place. */
  ghost predicate KeepsLines(cfg: Config, s: seq<int>, t: seq<int>, data: int) {
    && data == Lines(cfg, t) && |t| <= |s| + 1
    && Finished(cfg, s) <= t && Finished(cfg, s) <= Finished(cfg, t)
  }

  lemma PutKeeps(cfg: Config, s: seq<int>, c: int)
    ensures KeepsLines(cfg, s, s + [c], Lines(cfg, s) + if Ends(cfg, c) then 1 else 0)
  {
    LinesAppend(cfg, s, c);
    KilledAppend(cfg, s, c);
    PrefixAppend(Killed(cfg, s), s, c);
  }

  lemma CutKeeps(cfg: Config, s: seq<int>, t: seq<int>)
    requires t == Killed(cfg, s) || t == Erased(cfg, s) || t == s
    ensures KeepsLines(cfg, s, t, Lines(cfg, s))
  {
    KilledKeepsLines(cfg, s);
    ErasedKeepsLines(cfg, s);
    assert Killed(cfg, t) == Killed(cfg, s);
  }

  lemma EditIs(cfg: Config, s: State, c: int) returns (put: bool)
    ensures put ==> Edit(cfg, s, c).cooked == s.cooked + [c] && Edit(cfg, s, c).data == s.data + if Ends(cfg, c) then 1 else 0
    ensures !put ==> Edit(cfg, s, c).data == s.data && Edit(cfg, s, c).cooked in {Killed(cfg, s.cooked), Erased(cfg, s.cooked), s.cooked}
  {
    put := !((cfg.canon && (c == cfg.kill || c == cfg.erase || c == cfg.stop || c == cfg.start))
           || (cfg.isig && (c == cfg.intr || c == cfg.quit)));
  }

  /** No character typed ever costs a finished line. */
  lemma EditKeeps(cfg: Config, s: State, c: int)
    requires Inv(cfg, s)
    ensures KeepsLines(cfg, s.cooked, Edit(cfg, s, c).cooked, Edit(cfg, s, c).data)
  {
    var put := EditIs(cfg, s, c);
    if put {
      PutKeeps(cfg, s.cooked, c);
    } else {
      CutKeeps(cfg, s.cooked, Edit(cfg, s, c).cooked);
    }
  }

  lemma CookOneKeeps(cfg: Config, s: State)
    requires Inv(cfg, s) && s.raw != []
    ensures KeepsLines(cfg, s.cooked, CookOne(cfg, s).cooked, CookOne(cfg, s).data)
  {
    CutKeeps(cfg, s.cooked, s.cooked);
    EditKeeps(cfg, s.(raw := s.raw[1..]), Translate(cfg, s.raw[0]));
  }

  /** A character that neither editing nor signals take away. */
  predicate Plain(cfg: Config, c: int) {
    !(cfg.canon && (c == cfg.kill || c == cfg.erase || c == cfg.stop || c == cfg.start)) && !(cfg.isig && (c == cfg.intr || c == cfg.quit))
  }

  /** c goes to the secondary queue for what was typed first, and counts if it ends a line. */
  ghost predicate Appended(cfg: Config, s: State, t: State, c: int)
    requires s.raw != []
  {
    t == s.(raw := s.raw[1..], cooked := s.cooked + [c], data := s.data + if c == 10 || c == cfg.eof then 1 else 0)
  }

  /** What each input flag makes of a character. */
  lemma CookedAs(cfg: Config, s: State)
    requires s.raw != []
    ensures var c, t := s.raw[0], CookOne(cfg, s);
      && (c == 13 && cfg.crnl && Plain(cfg, 10) ==> Appended(cfg, s, t, 10))
      && (c == 13 && !cfg.crnl && cfg.nocr ==> t == s.(raw := s.raw[1..]))
      && (c == 13 && !cfg.crnl && !cfg.nocr && Plain(cfg, 13) ==> Appended(cfg, s, t, 13))
      && (c == 10 && cfg.nlcr && Plain(cfg, 13) ==> Appended(cfg, s, t, 13))
      && (c == 10 && !cfg.nlcr && Plain(cfg, 10) ==> Appended(cfg, s, t, 10))
      && (65 <= c <= 90 && cfg.uclc && Plain(cfg, c + 32) ==> Appended(cfg, s, t, c + 32))
      && (c != 10 && c != 13 && !(65 <= c <= 90 && cfg.uclc) && Plain(cfg, c) ==> Appended(cfg, s, t, c))
  {
  }

  lemma {:induction false} KilledIs(cfg: Config, s: seq<int>)
    ensures var r := Killed(cfg, s);
      && r <= s && (r == [] || Ends(cfg, r[|r| - 1])) && forall k | |r| <= k < |s| :: !Ends(cfg, s[k])
    decreases |s|
  {
    if s != [] && !Ends(cfg, s[|s| - 1]) {
      KilledIs(cfg, s[..|s| - 1]);
    }
  }

  /** What the special characters do: kill empties the line, erase takes its last character, stop
      and start hold the output, interrupt and quit signal; the earlier in this order decides. */
  lemma SpecialDoes(cfg: Config, s: State, c: int)
    ensures var t := Edit(cfg, s, c); var n := |s.cooked|;
      && (cfg.canon && c == cfg.kill ==>
            && t == s.(cooked := t.cooked) && t.cooked <= s.cooked
            && (t.cooked == [] || Ends(cfg, t.cooked[|t.cooked| - 1])) && forall k | |t.cooked| <= k < n :: !Ends(cfg, s.cooked[k]))
      && (cfg.canon && c == cfg.erase && c != cfg.kill ==>
            t == if n > 0 && s.cooked[n - 1] != 10 && s.cooked[n - 1] != cfg.eof then s.(cooked := s.cooked[..n - 1]) else s)
      && (cfg.canon && c == cfg.stop && c !in [cfg.kill, cfg.erase] ==> t == s.(stopped := true))
      && (cfg.canon && c == cfg.start && c !in [cfg.kill, cfg.erase, cfg.stop] ==> t == s.(stopped := false))
      && (cfg.isig && c == cfg.intr && !(cfg.canon && c in [cfg.kill, cfg.erase, cfg.stop, cfg.start]) ==>
            t == s.(signals := s.signals + [Interrupt]))
      && (cfg.isig && c == cfg.quit && c != cfg.intr && !(cfg.canon && c in [cfg.kill, cfg.erase, cfg.stop, cfg.start]) ==>
            t == s.(signals := s.signals + [Quit]))
  {
    KilledIs(cfg, s.cooked);
  }

  // ---- what the editor means --------------------------------------------------------------

  /** A character that is none of the special ones and ends no line. */
  predicate Ordinary(cfg: Config, c: int) {
    !Ends(cfg, c) && c != cfg.kill && c != cfg.erase && c != cfg.stop && c != cfg.start && c != cfg.intr && c != cfg.quit
  }

  function EditAll(cfg: Config, s: State, cs: seq<int>): State
    decreases |cs|
  {
    if cs == [] then s else EditAll(cfg, Edit(cfg, s, cs[0]), cs[1..])
  }

  /** Typing ordinary text appends it. */
  lemma {:induction false} TypeAppends(cfg: Config, s: State, text: seq<int>)
    requires forall c | c in text :: Ordinary(cfg, c)
    ensures EditAll(cfg, s, text) == s.(cooked := s.cooked + text)
    decreases |text|
  {
    if text == [] {
      assert s.cooked + text == s.cooked;
    } else {
      assert text[0] in text && forall c | c in text[1..] :: c in text;
      TypeAppends(cfg, Edit(cfg, s, text[0]), text[1..]);
      assert s.cooked + [text[0]] + text[1..] == s.cooked + text;
    }
  }

  lemma {:induction false} EditAllSplit(cfg: Config, s: State, a: seq<int>, b: seq<int>)
    ensures EditAll(cfg, s, a + b) == EditAll(cfg, EditAll(cfg, s, a), b)
    decreases |a|
  {
    if a == [] {
      assert a + b == b;
    } else {
      assert (a + b)[1..] == a[1..] + b;
      EditAllSplit(cfg, Edit(cfg, s, a[0]), a[1..], b);
    }
  }

  lemma EraseUndoesLast(cfg: Config, s: State, text: seq<int>)
    requires cfg.canon && cfg.erase != cfg.kill && text != [] && forall c | c in text :: Ordinary(cfg, c)
    ensures Edit(cfg, EditAll(cfg, s, text), cfg.erase) == EditAll(cfg, s, text[..|text| - 1])
  {
    var n := |text|;
    TypeAppends(cfg, s, text);
    TypeAppends(cfg, s, text[..n - 1]);
    assert (s.cooked + text)[..|s.cooked + text| - 1] == s.cooked + text[..n - 1];
    assert (s.cooked + text)[|s.cooked + text| - 1] == text[n - 1] && text[n - 1] in text;
  }

  /** Erase undoes the last character typed, and as many erases as characters a whole text. */
  lemma {:induction false} ErasesUndo(cfg: Config, s: State, text: seq<int>)
    requires cfg.canon && cfg.erase != cfg.kill && forall c | c in text :: Ordinary(cfg, c)
    ensures EditAll(cfg, s, text + seq(|text|, _ => cfg.erase)) == s
    decreases |text|
  {
    var n := |text|;
    if n == 0 {
      assert text + seq(n, _ => cfg.erase) == [];
    } else {
      var e := seq(n - 1, _ => cfg.erase);
      EditAllSplit(cfg, s, text, seq(n, _ => cfg.erase));
      EditAllSplit(cfg, s, text[..n - 1], e);
      assert seq(n, _ => cfg.erase)[1..] == e;
      EraseUndoesLast(cfg, s, text);
      ErasesUndo(cfg, s, text[..n - 1]);
    }
  }

  /** Kill undoes everything typed since the last line end. */
  lemma {:induction false} KilledText(cfg: Config, s: seq<int>, text: seq<int>)
    requires forall c | c in text :: !Ends(cfg, c)
    ensures Killed(cfg, s + text) == Killed(cfg, s)
    decreases |text|
  {
    if text != [] {
      var t := s + text;
      assert t[..|t| - 1] == s + text[..|text| - 1] && t[|t| - 1] in text;
      KilledText(cfg, s, text[..|text| - 1]);
    } else {
      assert s + text == s;
    }
  }

  lemma KillUndoes(cfg: Config, s: State, text: seq<int>)
    requires cfg.canon && Finished(cfg, s.cooked) == s.cooked && forall c | c in text :: Ordinary(cfg, c)
    ensures EditAll(cfg, s, text + [cfg.kill]) == s
  {
    EditAllSplit(cfg, s, text, [cfg.kill]);
    TypeAppends(cfg, s, text);
    KilledText(cfg, s.cooked, text);
  }

  // ---- tty_read -------------------------------------------------------------------------

  /** One GETCH of tty_read. */
  function TakeOne(cfg: Config, s: State): State
    requires s.cooked != []
  {
    s.(cooked := s.cooked[1..], data := if Ends(cfg, s.cooked[0]) then s.data - 1 else s.data)
  }

  lemma {:induction false} LinesTail(cfg: Config, s: seq<int>)
    requires s != []
    ensures Lines(cfg, s) == (if Ends(cfg, s[0]) then 1 else 0) + Lines(cfg, s[1..])
    decreases |s|
  {
    if |s| > 1 {
      var n := |s| - 1;
      LinesTail(cfg, s[..n]);
      assert s[..n][1..] == s[1..][..n - 1];
    }
  }

  lemma TakeKeeps(cfg: Config, s: State)
    requires Inv(cfg, s) && s.cooked != []
    ensures Inv(cfg, TakeOne(cfg, s))
  {
    LinesTail(cfg, s.cooked);
  }

  /** tty_read's do loop: up to nr characters, in canonical mode up to an end-of-file
      character, which is taken but not returned. It does not stop at newlines. */
  function Read(cfg: Config, s: State, nr: nat): (r: (State, seq<int>, bool))
    requires s.cooked != [] && nr > 0
    ensures r.1 + (if r.2 then [cfg.eof] else []) + r.0.cooked == s.cooked
    decreases |s.cooked|
  {
    var c, t := s.cooked[0], TakeOne(cfg, s);
    if c == cfg.eof && cfg.canon then (t, [], true)
    else if nr == 1 || t.cooked == [] then (t, [c], false)
    else
      var r := Read(cfg, t, nr - 1);
      assert s.cooked == [c] + t.cooked;
      (r.0, [c] + r.1, r.2)
  }

  /** It stops at the count, the end of the queue or an end-of-file, which is never returned. */
  lemma {:induction false} ReadStops(cfg: Config, s: State, nr: nat)
    requires s.cooked != [] && nr > 0
    ensures var r := Read(cfg, s, nr);
      && |r.1| <= nr && (r.2 ==> cfg.canon) && (!r.2 ==> |r.1| == nr || r.0.cooked == [])
      && (cfg.canon ==> cfg.eof !in r.1)
    decreases |s.cooked|
  {
    var t := TakeOne(cfg, s);
    if !(s.cooked[0] == cfg.eof && cfg.canon) && nr > 1 && t.cooked != [] {
      ReadStops(cfg, t, nr - 1);
    }
  }

  /** It returns more than m characters if and only if the count and the queue allow it and no
      end-of-file is met. */
  lemma {:induction false} ReadPast(cfg: Config, s: State, nr: nat, m: nat)
    requires s.cooked != [] && nr > 0
    ensures |Read(cfg, s, nr).1| > m <==> nr > m && |s.cooked| > m && (cfg.canon ==> cfg.eof !in s.cooked[..m + 1])
    decreases |s.cooked|
  {
    var t := TakeOne(cfg, s);
    if m > 0 && |s.cooked| > m {
      assert s.cooked[..m + 1] == [s.cooked[0]] + t.cooked[..m];
    }
    if m > 0 && !(s.cooked[0] == cfg.eof && cfg.canon) && nr > 1 && t.cooked != [] {
      ReadPast(cfg, t, nr - 1, m - 1);
    }
  }

  /** A read returns nothing past the first newline, at position p, if and only if the count
      or the queue ends there or, in canonical mode, an end-of-file comes no later than right
      behind it. */
  lemma ReadStopsAtNewlineIff(cfg: Config, s: State, nr: nat, p: nat)
    requires p < |s.cooked| && nr > 0 && s.cooked[p] == NL && NL !in s.cooked[..p]
    ensures Read(cfg, s, nr).1 <= s.cooked[..p + 1] <==>
      nr <= p + 1 || |s.cooked| == p + 1 || (cfg.canon && cfg.eof in s.cooked[..p + 2])
  {
    var r := Read(cfg, s, nr).1;
    ReadPast(cfg, s, nr, p + 1);
    assert r <= s.cooked;
    if |r| <= p + 1 {
      assert forall k | 0 <= k < |r| :: r[k] == s.cooked[..p + 1][k];
    }
  }

  /** Two lines in one canonical read. */
  lemma ReadTakesTwoLines(cfg: Config, s: State)
    requires cfg.canon && cfg.eof == 4 && s.cooked == [97, NL, 98, NL]
    ensures Read(cfg, s, 100).1 == [97, NL, 98, NL]
  {
    ReadPast(cfg, s, 100, 3);
  }

  /** `want` is what a read of `left` more characters from s makes after these bytes. */
  ghost predicate StillToRead(cfg: Config, want: (State, seq<int>, bool), bytes: seq<int>, s: State, left: nat)
    requires s.cooked != [] && left > 0
  {
    var r := Read(cfg, s, left);
    want.0 == r.0 && want.1 == bytes + r.1 && want.2 == r.2
  }

  lemma ReadStep(cfg: Config, want: (State, seq<int>, bool), bytes: seq<int>, s: State, left: nat)
    requires s.cooked != [] && left > 0 && StillToRead(cfg, want, bytes, s, left)
    ensures var c, t := s.cooked[0], TakeOne(cfg, s);
      if c == cfg.eof && cfg.canon then want == (t, bytes, true)
      else if left == 1 || t.cooked == [] then want == (t, bytes + [c], false)
      else StillToRead(cfg, want, bytes + [c], t, left - 1)
  {
    var c, t := s.cooked[0], TakeOne(cfg, s);
    assert bytes + [] == bytes;
    if !(c == cfg.eof && cfg.canon) && left > 1 && t.cooked != [] {
      var r := Read(cfg, t, left - 1);
      assert bytes + ([c] + r.1) == bytes + [c] + r.1;
    }
  }

  lemma {:induction false} ReadKeeps(cfg: Config, s: State, nr: nat)
    requires Inv(cfg, s) && s.cooked != [] && nr > 0
    ensures Inv(cfg, Read(cfg, s, nr).0) && Read(cfg, s, nr).0.raw == s.raw
    decreases |s.cooked|
  {
    TakeKeeps(cfg, s);
    var t := TakeOne(cfg, s);
    if !(s.cooked[0] == cfg.eof && cfg.canon) && nr > 1 && t.cooked != [] {
      ReadKeeps(cfg, t, nr - 1);
    }
  }

  /** tty_read's test for going to sleep. */
  predicate MustWait(cfg: Config, s: State) {
    s.cooked == [] || (cfg.canon && s.data == 0 && CAPACITY - |s.cooked| > 20)
  }

  lemma {:induction false} NoLines(cfg: Config, s: seq<int>)
    ensures Lines(cfg, s) == 0 <==> forall c | c in s :: !Ends(cfg, c)
    decreases |s|
  {
    if s != [] {
      var n := |s| - 1;
      NoLines(cfg, s[..n]);
      assert forall c | c in s :: c in s[..n] || c == s[n];
    }
  }

  /** A canonical reader sleeps exactly when no line is finished and the queue is not
      nearly full. */
  lemma WaitsIff(cfg: Config, s: State)
    requires Inv(cfg, s) && cfg.canon && |s.cooked| <= CAPACITY
    ensures MustWait(cfg, s) <==> (forall c | c in s.cooked :: !Ends(cfg, c)) && |s.cooked| < CAPACITY - 20
  {
    NoLines(cfg, s.cooked);
  }

  // ---- every interleaving ---------------------------------------------------------------

  /** A character typed; a round of copy_to_cooked when it may have one; a GETCH of a reader. */
  datatype Step = Typed(c: int) | CookRound | Getch

  function Apply(cfg: Config, s: State, step: Step): State {
    match step
    case Typed(c) => if |s.raw| < CAPACITY then s.(raw := s.raw + [c]) else s
    case CookRound => if s.raw == [] || |s.cooked| == CAPACITY then s else CookOne(cfg, s)
    case Getch => if s.cooked == [] then s else TakeOne(cfg, s)
  }

  function Run(cfg: Config, s: State, steps: seq<Step>): State
    decreases |steps|
  {
    if steps == [] then s else Run(cfg, Apply(cfg, s, steps[0]), steps[1..])
  }

  lemma StepKeeps(cfg: Config, s: State, step: Step)
    requires Inv(cfg, s) && |s.cooked| <= CAPACITY && |s.raw| <= CAPACITY
    ensures var r := Apply(cfg, s, step); Inv(cfg, r) && |r.cooked| <= CAPACITY && |r.raw| <= CAPACITY
  {
    match step
    case Typed(_) =>
    case CookRound => if s.raw != [] { CookOneKeeps(cfg, s); }
    case Getch => if s.cooked != [] { TakeKeeps(cfg, s); }
  }

  /** With fixed control characters the count is right in every run, and no queue overflows. */
  lemma {:induction false} RunKeeps(cfg: Config, s: State, steps: seq<Step>)
    requires Inv(cfg, s) && |s.cooked| <= CAPACITY && |s.raw| <= CAPACITY
    ensures var r := Run(cfg, s, steps); Inv(cfg, r) && |r.cooked| <= CAPACITY && |r.raw| <= CAPACITY
    decreases |steps|
  {
    if steps != [] {
      StepKeeps(cfg, s, steps[0]);
      RunKeeps(cfg, Apply(cfg, s, steps[0]), steps[1..]);
    }
  }
}
