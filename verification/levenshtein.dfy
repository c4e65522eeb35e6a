/**
 * Edit distance between two titles: a recursive reference definition over
 * prefix lengths, and the two-dimensional dynamic-programming table the
 * matcher fills in, proved to compute it.
 */
module Levenshtein {

  function Min3(x: int, y: int, z: int): int {
    if x <= y && x <= z then x else if y <= z then y else z
  }

  function Max(x: int, y: int): int { if x >= y then x else y }

  /** Edit distance between the prefixes `a[..i]` and `b[..j]`. */
  function Dist(a: string, b: string, i: nat, j: nat): nat
    requires i <= |a| && j <= |b|
    decreases i + j
  {
    if i == 0 then j
    else if j == 0 then i
    else
      var cost := if a[i - 1] == b[j - 1] then 0 else 1;
      Min3(Dist(a, b, i - 1, j) + 1, Dist(a, b, i, j - 1) + 1, Dist(a, b, i - 1, j - 1) + cost)
  }

  /** One step of the recurrence, for a cell off the first row and column. */
  lemma DistStep(a: string, b: string, i: nat, j: nat)
    requires 0 < i <= |a| && 0 < j <= |b|
    ensures Dist(a, b, i, j) == Min3(Dist(a, b, i - 1, j) + 1, Dist(a, b, i, j - 1) + 1,
                                     Dist(a, b, i - 1, j - 1) + if a[i - 1] == b[j - 1] then 0 else 1)
  {
  }

  function Distance(a: string, b: string): nat {
    Dist(a, b, |a|, |b|)
  }

  /** `row` holds the distances between `a[..i]` and every prefix of `b`. */
  predicate IsRow(a: string, b: string, i: nat, row: seq<nat>)
    requires i <= |a|
  {
    |row| == |b| + 1 && forall j :: 0 <= j <= |b| ==> row[j] == Dist(a, b, i, j)
  }

  /**
   * The table algorithm, with the table as a sequence of rows: row `i`
   * holds the distances between the first `i` characters of `s1` and
   * every prefix of `s2`.  Row 0 and each row's first cell are the
   * initial values; every other cell is the minimum of its three
   * neighbours' candidates.
   */
  method LevenshteinDistance(s1: string, s2: string) returns (d: nat)
    ensures d == Distance(s1, s2)
  {
    var dp: seq<seq<nat>> := [seq(|s2| + 1, j => j)];
    assert IsRow(s1, s2, 0, dp[0]);
    var i := 1;
    while i <= |s1|
      invariant 1 <= i <= |s1| + 1 && |dp| == i
      invariant forall i' :: 0 <= i' < i ==> IsRow(s1, s2, i', dp[i'])
    {
      var row := NextRow(s1, s2, i, dp[i - 1]);
      dp := dp + [row];
      i := i + 1;
    }
    assert IsRow(s1, s2, |s1|, dp[|s1|]);
    d := dp[|s1|][|s2|];
  }

  /** Row `i` of the table from row `i - 1`, cell by cell from left to right. */
  method NextRow(s1: string, s2: string, i: nat, prev: seq<nat>) returns (row: seq<nat>)
    requires 0 < i <= |s1| && IsRow(s1, s2, i - 1, prev)
    ensures IsRow(s1, s2, i, row)
  {
    row := [i];
    var j := 1;
    while j <= |s2|
      invariant 1 <= j <= |s2| + 1 && |row| == j && RowPrefix(s1, s2, i, row)
    {
      var cost := if s1[i - 1] == s2[j - 1] then 0 else 1;
      var v := Min3(prev[j] + 1, row[j - 1] + 1, prev[j - 1] + cost);
      CellStep(s1, s2, i, prev, row);
      row := row + [v];
      j := j + 1;
    }
  }

  /** The first cells of row `i`. */
  predicate RowPrefix(a: string, b: string, i: nat, row: seq<nat>)
    requires i <= |a| && |row| <= |b| + 1
  {
    forall j :: 0 <= j < |row| ==> row[j] == Dist(a, b, i, j)
  }

  /** The next cell, from the cell to its left and the two above it, extends the row correctly. */
  lemma CellStep(a: string, b: string, i: nat, prev: seq<nat>, row: seq<nat>)
    requires 0 < i <= |a| && IsRow(a, b, i - 1, prev)
    requires 0 < |row| <= |b| && RowPrefix(a, b, i, row)
    ensures var j := |row|;
      RowPrefix(a, b, i, row + [Min3(prev[j] + 1, row[j - 1] + 1, prev[j - 1] + if a[i - 1] == b[j - 1] then 0 else 1)])
  {
    var j := |row|;
    DistStep(a, b, i, j);
  }

  // ---------------------------------------------------------------------
  // Metric facts
  // ---------------------------------------------------------------------

  lemma {:induction false} DistSymmetric(a: string, b: string, i: nat, j: nat)
    requires i <= |a| && j <= |b|
    ensures Dist(a, b, i, j) == Dist(b, a, j, i)
    decreases i + j
  {
    if i > 0 && j > 0 {
      DistSymmetric(a, b, i - 1, j);
      DistSymmetric(a, b, i, j - 1);
      DistSymmetric(a, b, i - 1, j - 1);
    }
  }

  lemma {:induction false} DistSelf(a: string, i: nat)
    requires i <= |a|
    ensures Dist(a, a, i, i) == 0
  {
    if i > 0 {
      DistSelf(a, i - 1);
    }
  }

  lemma {:induction false} DistBounds(a: string, b: string, i: nat, j: nat)
    requires i <= |a| && j <= |b|
    ensures i - j <= Dist(a, b, i, j) && j - i <= Dist(a, b, i, j)
    ensures Dist(a, b, i, j) <= Max(i, j)
    decreases i + j
  {
    if i > 0 && j > 0 {
      DistBounds(a, b, i - 1, j);
      DistBounds(a, b, i, j - 1);
      DistBounds(a, b, i - 1, j - 1);
    }
  }

  /** Distance zero means the prefixes are the same text. */
  lemma {:induction false} DistZero(a: string, b: string, i: nat, j: nat)
    requires i <= |a| && j <= |b|
    requires Dist(a, b, i, j) == 0
    ensures i == j && a[..i] == b[..j]
    decreases i + j
  {
    DistBounds(a, b, i, j);
    if i > 0 {
      DistStep(a, b, i, j);
      assert Dist(a, b, i - 1, j - 1) == 0 && a[i - 1] == b[j - 1];
      DistZero(a, b, i - 1, j - 1);
      assert a[..i] == a[..i - 1] + [a[i - 1]];
      assert b[..j] == b[..j - 1] + [b[j - 1]];
    }
  }

  /**
   * The distance is a metric-like quantity: zero exactly on equal texts,
   * the length of the other text against the empty text, symmetric, and
   * between the difference and the maximum of the lengths.
   */
  lemma DistanceProperties(a: string, b: string)
    ensures Distance(a, a) == 0
    ensures Distance(a, []) == |a| && Distance([], b) == |b|
    ensures Distance(a, b) == Distance(b, a)
    ensures Distance(a, b) == 0 <==> a == b
    ensures |a| - |b| <= Distance(a, b) && |b| - |a| <= Distance(a, b)
    ensures Distance(a, b) <= Max(|a|, |b|)
  {
    DistSelf(a, |a|);
    DistSymmetric(a, b, |a|, |b|);
    DistBounds(a, b, |a|, |b|);
    if Distance(a, b) == 0 {
      DistZero(a, b, |a|, |b|);
      assert a == a[..|a|] && b == b[..|b|];
    }
    if a == b {
      DistSelf(a, |a|);
    }
  }

  // ---------------------------------------------------------------------
  // Bounds used to evaluate concrete pairs
  // ---------------------------------------------------------------------

  /** Number of positions below `i` where two texts differ. */
  function Mismatches(a: string, b: string, i: nat): nat
    requires i <= |a| && i <= |b|
  {
    if i == 0 then 0 else Mismatches(a, b, i - 1) + (if a[i - 1] == b[i - 1] then 0 else 1)
  }

  /** Substituting every differing position is one way to edit. */
  lemma {:induction false} DistAtMostMismatches(a: string, b: string, i: nat)
    requires i <= |a| && i <= |b|
    ensures Dist(a, b, i, i) <= Mismatches(a, b, i)
  {
    if i > 0 {
      DistAtMostMismatches(a, b, i - 1);
    }
  }

  /** Occurrences of `c` among the first `i` characters of `s`. */
  function CountIn(s: string, c: char, i: nat): nat
    requires i <= |s|
  {
    if i == 0 then 0 else CountIn(s, c, i - 1) + (if s[i - 1] == c then 1 else 0)
  }

  /** Each edit changes the number of occurrences of one character by at most one. */
  lemma {:induction false} DistAtLeastCountGap(a: string, b: string, c: char, i: nat, j: nat)
    requires i <= |a| && j <= |b|
    ensures CountIn(a, c, i) - CountIn(b, c, j) <= Dist(a, b, i, j)
    decreases i + j
  {
    if i > 0 && j > 0 {
      DistAtLeastCountGap(a, b, c, i - 1, j);
      DistAtLeastCountGap(a, b, c, i, j - 1);
      DistAtLeastCountGap(a, b, c, i - 1, j - 1);
    } else if i > 0 {
      CountAtMost(a, c, i);
    }
  }

  lemma {:induction false} CountAtMost(s: string, c: char, i: nat)
    requires i <= |s|
    ensures CountIn(s, c, i) <= i
  {
    if i > 0 {
      CountAtMost(s, c, i - 1);
    }
  }
}
