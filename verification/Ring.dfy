/** Power-of-two rings, as pipes (fs/pipe.c, include/linux/fs.h) and terminal queues
    (include/linux/tty.h) have them: the empty slot that tells full from empty is never used. */
module Ring {

  /** How much is in a ring of this size: (head - tail) & (size - 1). */
  function Used(head: nat, tail: nat, size: nat): (n: nat)
    requires head < size && tail < size
    ensures n < size
  {
    if head >= tail then head - tail else head + size - tail
  }

  function Wrap(x: nat, size: nat): (r: nat)
    requires 0 < size && x < 2 * size
    ensures r < size
  {
    if x >= size then x - size else x
  }

  /** What is in it, oldest first. */
  function Contents<T>(buf: seq<T>, head: nat, tail: nat): (c: seq<T>)
    requires head < |buf| && tail < |buf|
    ensures |c| == Used(head, tail, |buf|)
    ensures forall i {:trigger c[i]} | 0 <= i < |c| :: c[i] == buf[Wrap(tail + i, |buf|)]
  {
    seq(Used(head, tail, |buf|), i requires 0 <= i < |buf| => buf[Wrap(tail + i, |buf|)])
  }

  /** The wrap-around subtraction and masking of the C macros, for the two sizes in use. */
  lemma MaskIs(head: nat, tail: nat, size: nat)
    requires head < size && tail < size && (size == 1024 || size == 4096)
    ensures Used(head, tail, size) == (head - tail) % size
    ensures Wrap(head + 1, size) == (head + 1) % size
    ensures Wrap(head + size - 1, size) == (head - 1) % size
    ensures size - 1 - Used(head, tail, size) == (tail - head - 1) % size
  {
    if size == 1024 {
      assert (head - tail) % 1024 == if head >= tail then head - tail else head - tail + 1024;
      assert (tail - head - 1) % 1024 == if tail > head then tail - head - 1 else tail - head - 1 + 1024;
    } else {
      assert (head - tail) % 4096 == if head >= tail then head - tail else head - tail + 4096;
      assert (tail - head - 1) % 4096 == if tail > head then tail - head - 1 else tail - head - 1 + 4096;
    }
  }

  /** Bytes written from head on, not past the end of the buffer nor the free room, are
      appended; nothing unread is overwritten. */
  lemma Written<T>(buf: seq<T>, after: seq<T>, head: nat, tail: nat, bytes: seq<T>)
    requires head < |buf| == |after| && tail < |buf|
    requires head + |bytes| <= |buf| && Used(head, tail, |buf|) + |bytes| < |buf|
    requires forall i {:trigger after[i]} | 0 <= i < |buf| :: after[i] == if head <= i < head + |bytes| then bytes[i - head] else buf[i]
    ensures Contents(after, Wrap(head + |bytes|, |buf|), tail) == Contents(buf, head, tail) + bytes
  {
    var c, d := Contents(buf, head, tail), Contents(after, Wrap(head + |bytes|, |buf|), tail);
    assert |d| == |c| + |bytes|;
    forall i | 0 <= i < |d| ensures d[i] == (c + bytes)[i] {
      assert d[i] == after[Wrap(tail + i, |buf|)];
    }
  }

  /** Taking bytes at tail takes the oldest. */
  lemma Taken<T>(buf: seq<T>, head: nat, tail: nat, n: nat)
    requires head < |buf| && tail < |buf| && tail + n <= |buf| && n <= Used(head, tail, |buf|)
    ensures var c := Contents(buf, head, tail);
      buf[tail..tail + n] == c[..n] && Contents(buf, head, Wrap(tail + n, |buf|)) == c[n..]
  {
    var c, d := Contents(buf, head, tail), Contents(buf, head, Wrap(tail + n, |buf|));
    assert |d| == |c| - n;
    forall i | 0 <= i < n ensures buf[tail..tail + n][i] == c[..n][i] {
      assert c[i] == buf[Wrap(tail + i, |buf|)];
    }
    forall i | 0 <= i < |d| ensures d[i] == c[n..][i] {
      assert c[n + i] == buf[Wrap(tail + (n + i), |buf|)];
    }
  }
}
