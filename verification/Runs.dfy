/** Sequences of distinct keys in at most two ascending runs, and what inserting at the
    first gap that fits does to them: the arithmetic behind the disk elevator. */
module Runs {

  ghost predicate Distinct(k: seq<int>) {
    forall i, j | 0 <= i < j < |k| :: k[i] != k[j]
  }

  /** The sequence goes down after position i. */
  ghost predicate Break(k: seq<int>, i: int) {
    0 <= i && i + 1 < |k| && k[i] > k[i + 1]
  }

  ghost predicate TwoRuns(k: seq<int>) {
    forall i, j :: Break(k, i) && Break(k, j) ==> i == j
  }

  /** x fits into the gap after position i: between its ends, or below the upper end of a descent. */
  ghost predicate Fits(k: seq<int>, x: int, i: int) {
    0 <= i && i + 1 < |k| && (k[i] < x || k[i] >= k[i + 1]) && x < k[i + 1]
  }

  /** x was put after position p. */
  ghost predicate IsInsert(k: seq<int>, p: nat, x: int, t: seq<int>) {
    p < |k| && |t| == |k| + 1 && forall i {:trigger t[i]} | 0 <= i < |t| :: t[i] == if i <= p then k[i] else if i == p + 1 then x else k[i - 1]
  }

  /** p is the first gap that fits, or the end. */
  ghost predicate FirstFit(k: seq<int>, x: int, p: nat) {
    p < |k| && (p + 1 == |k| || Fits(k, x, p)) && forall j | 0 <= j < p :: !Fits(k, x, j)
  }

  /** Where no gap of an ascending stretch fits x, and x is above its start, x is above its end. */
  lemma NoFitNoGap(k: seq<int>, x: int, a: nat, b: nat)
    requires a <= b < |k| && x !in k && k[a] < x
    requires forall j | a <= j < b :: !Fits(k, x, j) && !Break(k, j)
    ensures k[b] < x
    decreases b - a
  {
    if a < b {
      assert !Fits(k, x, a);
      assert k[a + 1] in k;
      NoFitNoGap(k, x, a + 1, b);
    }
  }

  lemma InsertDistinct(k: seq<int>, p: nat, x: int, t: seq<int>)
    requires Distinct(k) && x !in k && IsInsert(k, p, x, t)
    ensures Distinct(t)
  {
    forall i, j | 0 <= i < j < |t| ensures t[i] != t[j] {
      assert i != p + 1 ==> t[i] in k;
      assert j != p + 1 ==> t[j] in k;
    }
  }

  lemma InsertTwoRuns(k: seq<int>, p: nat, x: int, t: seq<int>)
    requires Distinct(k) && x !in k && TwoRuns(k) && IsInsert(k, p, x, t) && FirstFit(k, x, p)
    ensures TwoRuns(t)
  {
    // Each break of t comes from a break of k, or is the one x opens at the end.
    forall i | Break(t, i) ensures i != p + 1 && ((i == p && p + 1 == |k|) || Break(k, if i <= p then i else i - 1)) {
    }
    if p + 1 == |k| && Break(t, p) {
      forall i | 0 <= i < p ensures !Break(k, i) {
        if Break(k, i) {
          // x is below the last key; were it not below k[i + 1], a gap of the second run would fit it.
          assert !Fits(k, x, i) && k[i + 1] in k;
          NoFitNoGap(k, x, i + 1, p);
        }
      }
    }
    forall i, j | Break(t, i) && Break(t, j) ensures i == j {
      var a, b := if i <= p then i else i - 1, if j <= p then j else j - 1;
      assert Break(k, a) && Break(k, b) ==> a == b;
    }
  }

  /** e is where the first ascending run ends. */
  ghost predicate EndsAt(k: seq<int>, e: nat) {
    e < |k| && (forall j | 0 <= j < e :: k[j] < k[j + 1]) && (e + 1 == |k| || k[e] >= k[e + 1])
  }

  ghost function FirstRun(k: seq<int>): (e: nat)
    requires k != []
    ensures EndsAt(k, e)
  {
    if |k| == 1 then 0 else
    var e := FirstRun(k[..|k| - 1]);
    if e + 2 == |k| && k[e] < k[e + 1] then e + 1 else e
  }

  lemma StillRising(k: seq<int>, e: nat, d: nat)
    requires EndsAt(k, e) && d < e
    ensures d + 1 < |k| && k[d] < k[d + 1]
  {
  }

  lemma EndUnique(k: seq<int>, d: nat, e: nat)
    requires EndsAt(k, d) && EndsAt(k, e)
    ensures d == e
  {
    if d < e { StillRising(k, e, d); }
    if e < d { StillRising(k, d, e); }
  }

  lemma Rising(k: seq<int>, a: nat, b: nat)
    requires a <= b < |k| && forall j | a <= j < b :: k[j] < k[j + 1]
    ensures k[a] <= k[b] && (a < b ==> k[a] < k[b])
    decreases b - a
  {
    if a < b {
      Rising(k, a + 1, b);
    }
  }

  /** How far position i is from the front: in the first run, its key's distance from the
      first key; behind it, `top` more than the distance to the end of the run. */
  ghost function Distance(k: seq<int>, i: nat, top: nat): int
    requires i < |k|
  {
    var e := FirstRun(k);
    if i <= e then k[i] - k[0] else top + (k[e] - k[0])
  }

  lemma DistanceBounds(k: seq<int>, i: nat, top: nat)
    requires i < |k| && forall j | 0 <= j < |k| :: 0 <= k[j] < top
    ensures 0 <= Distance(k, i, top) < 2 * top
  {
    var e := FirstRun(k);
    Rising(k, 0, e);
    if i <= e {
      Rising(k, 0, i);
    }
  }

  /** Removing the first brings every other position strictly closer. */
  lemma RemovalCloser(k: seq<int>, i: nat, top: nat)
    requires TwoRuns(k) && Distinct(k) && 0 < i < |k| && forall j | 0 <= j < |k| :: 0 <= k[j] < top
    ensures Distance(k[1..], i - 1, top) < Distance(k, i, top)
  {
    var e, t := FirstRun(k), k[1..];
    if e > 0 {
      forall j | 0 <= j < e - 1 ensures t[j] < t[j + 1] {
        assert k[j + 1] < k[j + 2];
      }
      EndUnique(t, FirstRun(t), e - 1);
      assert k[0] < k[1];
    } else {
      assert Break(k, 0);
      forall j | 0 <= j < |t| - 1 ensures t[j] < t[j + 1] {
        assert !Break(k, j + 1);
      }
      EndUnique(t, FirstRun(t), |t| - 1);
      Rising(t, 0, i - 1);
    }
  }

  /** The first run after an insertion: one longer when x joins it. */
  lemma NewEnd(k: seq<int>, p: nat, x: int, t: seq<int>, e: nat)
    requires Distinct(k) && x !in k && IsInsert(k, p, x, t) && FirstFit(k, x, p) && EndsAt(k, e)
    ensures EndsAt(t, if p < e || (p == e && e + 1 == |k| && k[e] < x) then e + 1 else e)
  {
    if p < e {
      assert k[p] < k[p + 1];
      forall j | 0 <= j < e + 1 ensures t[j] < t[j + 1] {
        if j < e { assert k[j] < k[j + 1]; }
        if j > p + 1 { assert k[j - 1] < k[j - 1 + 1]; }
      }
    }
  }

  /** An insertion into the first run lengthens it, but no distance along it. */
  lemma JoiningKeepsDistance(k: seq<int>, p: nat, x: int, t: seq<int>, e: nat, i: nat, top: nat)
    requires IsInsert(k, p, x, t) && i < |k| && EndsAt(k, e) && EndsAt(t, e + 1)
    requires p < e || (p == e && e + 1 == |k|)
    ensures Distance(t, if i <= p then i else i + 1, top) == Distance(k, i, top)
  {
    EndUnique(k, FirstRun(k), e);
    EndUnique(t, FirstRun(t), e + 1);
  }

  /** One behind it changes nothing of it. */
  lemma BehindKeepsDistance(k: seq<int>, p: nat, x: int, t: seq<int>, e: nat, i: nat, top: nat)
    requires IsInsert(k, p, x, t) && i < |k| && EndsAt(k, e) && EndsAt(t, e) && p >= e
    ensures Distance(t, if i <= p then i else i + 1, top) == Distance(k, i, top)
  {
    EndUnique(k, FirstRun(k), e);
    EndUnique(t, FirstRun(t), e);
  }

  /** An insertion leaves every distance as it was. */
  lemma InsertionSameDistance(k: seq<int>, p: nat, x: int, t: seq<int>, i: nat, top: nat)
    requires Distinct(k) && x !in k && IsInsert(k, p, x, t) && FirstFit(k, x, p) && i < |k|
    ensures Distance(t, if i <= p then i else i + 1, top) == Distance(k, i, top)
  {
    var e := FirstRun(k);
    NewEnd(k, p, x, t, e);
    if p < e || (p == e && e + 1 == |k| && k[e] < x) {
      JoiningKeepsDistance(k, p, x, t, e, i, top);
    } else {
      BehindKeepsDistance(k, p, x, t, e, i, top);
    }
  }
}
