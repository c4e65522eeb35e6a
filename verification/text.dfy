/** Java `String` operations the core relies on, written out over `seq<char>`. */
module Text {
  import opened Wrappers

  // ---------------------------------------------------------------------
  // Character classes
  // ---------------------------------------------------------------------

  /** `\s` of a Java regular expression without UNICODE_CHARACTER_CLASS. */
  predicate IsRegexSpace(c: char) {
    c == ' ' || c == '\t' || c == '\n' || c == '\U{000B}' || c == '\U{000C}' || c == '\r'
  }

  /** `\w` of a Java regular expression: `[a-zA-Z_0-9]`. */
  predicate IsWordChar(c: char) {
    ('a' <= c <= 'z') || ('A' <= c <= 'Z') || ('0' <= c <= '9') || c == '_'
  }

  predicate IsAsciiDigit(c: char) { '0' <= c <= '9' }

  /**
   * `Character.isWhitespace`, which decides `String.isBlank`: the Unicode
   * space, line and paragraph separators other than the no-break spaces,
   * plus the ASCII controls TAB to CR and FS to US.
   */
  predicate IsJavaWhitespace(c: char) {
    || ('\t' <= c <= '\r') || ('\U{001C}' <= c <= '\U{001F}') || c == ' '
    || c == '\U{1680}' || ('\U{2000}' <= c <= '\U{2006}') || ('\U{2008}' <= c <= '\U{200A}')
    || c == '\U{2028}' || c == '\U{2029}' || c == '\U{205F}' || c == '\U{3000}'
  }

  /** ASCII case mapping; the model does not cover Unicode case folding. */
  function LowerChar(c: char): char {
    if 'A' <= c <= 'Z' then (c as int + 32) as char else c
  }

  function Lower(s: string): (r: string)
    ensures |r| == |s|
    ensures forall i :: 0 <= i < |s| ==> r[i] == LowerChar(s[i])
  {
    if s == [] then [] else [LowerChar(s[0])] + Lower(s[1..])
  }

  lemma LowerIdempotent(s: string)
    ensures Lower(Lower(s)) == Lower(s)
  {
  }

  // ---------------------------------------------------------------------
  // Searching
  // ---------------------------------------------------------------------

  /** `s.contains(t)`. */
  predicate Contains(s: string, t: string)
    decreases |s|
  {
    t <= s || (|s| > 0 && Contains(s[1..], t))
  }

  lemma ContainsAt(s: string, t: string, k: nat)
    requires k + |t| <= |s| && s[k..k + |t|] == t
    ensures Contains(s, t)
    decreases k
  {
    if k > 0 {
      assert s[1..][k - 1..k - 1 + |t|] == s[k..k + |t|];
      ContainsAt(s[1..], t, k - 1);
    }
  }

  lemma ContainsWitness(s: string, t: string) returns (k: nat)
    requires Contains(s, t)
    ensures k + |t| <= |s| && s[k..k + |t|] == t
    decreases |s|
  {
    if t <= s {
      k := 0;
    } else {
      var k' := ContainsWitness(s[1..], t);
      k := k' + 1;
      assert s[1..][k'..k' + |t|] == s[k..k + |t|];
    }
  }

  /** The least index from `i` on where `b` holds: a leftmost-match scan. */
  function FirstTrue(b: seq<bool>, i: nat): (r: Option<nat>)
    requires i <= |b|
    ensures r.None? ==> forall j :: i <= j < |b| ==> !b[j]
    ensures r.Some? ==> i <= r.value < |b| && b[r.value]
    ensures r.Some? ==> forall j :: i <= j < r.value ==> !b[j]
    decreases |b| - i
  {
    if i == |b| then None else if b[i] then Some(i) else FirstTrue(b, i + 1)
  }

  /** A position where `b` holds with nothing before it from `i` on is what the scan finds. */
  lemma FirstTrueAt(b: seq<bool>, i: nat, p: nat)
    requires i <= p < |b| && b[p] && forall q :: i <= q < p ==> !b[q]
    ensures FirstTrue(b, i) == Some(p)
  {
  }

  /** `s.indexOf(c, from)`: the first position at or after `from` holding `c`. */
  function IndexOf(s: string, c: char, from: nat): (r: Option<nat>)
    ensures r.Some? ==> from <= r.value < |s| && s[r.value] == c
    ensures r.Some? ==> forall k :: from <= k < r.value ==> s[k] != c
    ensures r.None? ==> forall k :: from <= k < |s| ==> s[k] != c
    decreases |s| - from
  {
    if from >= |s| then None
    else if s[from] == c then Some(from)
    else IndexOf(s, c, from + 1)
  }

  /** `s.lastIndexOf(c)`, with -1 for "absent". */
  function LastIndexOf(s: string, c: char): (r: int)
    ensures -1 <= r < |s|
    ensures r >= 0 ==> s[r] == c
    ensures forall k :: r < k < |s| ==> s[k] != c
  {
    if s == [] then -1
    else if s[|s| - 1] == c then |s| - 1
    else LastIndexOf(s[..|s| - 1], c)
  }

  // ---------------------------------------------------------------------
  // Rewriting
  // ---------------------------------------------------------------------

  /**
   * `s.replace(target, replacement)`: every non-overlapping occurrence of
   * the literal `target`, scanning left to right, is replaced.  An empty
   * target inserts the replacement before every character and at the end.
   */
  function Replace(s: string, target: string, replacement: string): string
    decreases |s|
  {
    if target == [] then
      if s == [] then replacement else replacement + [s[0]] + Replace(s[1..], target, replacement)
    else if target <= s then replacement + Replace(s[|target|..], target, replacement)
    else if s == [] then []
    else [s[0]] + Replace(s[1..], target, replacement)
  }

  /** The effect of replacing one character, as a per-character map. */
  function ReplaceCharMap(s: string, c: char, replacement: string): string
  {
    if s == [] then [] else (if s[0] == c then replacement else [s[0]]) + ReplaceCharMap(s[1..], c, replacement)
  }

  lemma {:induction false} ReplaceSingleChar(s: string, c: char, replacement: string)
    ensures Replace(s, [c], replacement) == ReplaceCharMap(s, c, replacement)
    decreases |s|
  {
    if s != [] {
      ReplaceSingleChar(s[1..], c, replacement);
      if [c] <= s {
        assert s[|[c]|..] == s[1..];
      }
    }
  }

  lemma {:induction false} ReplaceCharMapAppend(a: string, b: string, c: char, replacement: string)
    ensures ReplaceCharMap(a + b, c, replacement) == ReplaceCharMap(a, c, replacement) + ReplaceCharMap(b, c, replacement)
    decreases |a|
  {
    if a != [] {
      assert (a + b)[1..] == a[1..] + b;
      assert (a + b)[0] == a[0];
      ReplaceCharMapAppend(a[1..], b, c, replacement);
      var head := if a[0] == c then replacement else [a[0]];
      calc {
        ReplaceCharMap(a + b, c, replacement);
        head + ReplaceCharMap(a[1..] + b, c, replacement);
        head + (ReplaceCharMap(a[1..], c, replacement) + ReplaceCharMap(b, c, replacement));
        (head + ReplaceCharMap(a[1..], c, replacement)) + ReplaceCharMap(b, c, replacement);
      }
    } else {
      assert a + b == b;
    }
  }

  lemma {:induction false} ReplaceCharMapAbsent(s: string, c: char, replacement: string)
    requires c !in s
    ensures ReplaceCharMap(s, c, replacement) == s
    decreases |s|
  {
    if s != [] {
      ReplaceCharMapAbsent(s[1..], c, replacement);
    }
  }

  /** Removing every occurrence of a single character leaves none behind. */
  lemma {:induction false} ReplaceCharRemoves(s: string, c: char, replacement: string)
    requires c !in replacement
    ensures c !in Replace(s, [c], replacement)
    ensures forall x :: x in Replace(s, [c], replacement) ==> x in s || x in replacement
  {
    ReplaceSingleChar(s, c, replacement);
    ReplaceCharMapRemoves(s, c, replacement);
  }

  lemma {:induction false} ReplaceCharMapRemoves(s: string, c: char, replacement: string)
    requires c !in replacement
    ensures c !in ReplaceCharMap(s, c, replacement)
    ensures forall x :: x in ReplaceCharMap(s, c, replacement) ==> x in s || x in replacement
    decreases |s|
  {
    if s != [] {
      ReplaceCharMapRemoves(s[1..], c, replacement);
    }
  }

  /** `s.trim()`: strips every leading and trailing character <= U+0020. */
  function TrimStart(s: string): (r: string)
    ensures |r| <= |s| && r == s[|s| - |r|..]
    ensures r == [] || r[0] > ' '
    ensures forall k :: 0 <= k < |s| - |r| ==> s[k] <= ' '
  {
    if s != [] && s[0] <= ' ' then TrimStart(s[1..]) else s
  }

  function TrimEnd(s: string): (r: string)
    ensures |r| <= |s| && r == s[..|r|]
    ensures r == [] || r[|r| - 1] > ' '
    ensures forall k :: |r| <= k < |s| ==> s[k] <= ' '
  {
    if s != [] && s[|s| - 1] <= ' ' then TrimEnd(s[..|s| - 1]) else s
  }

  function Trim(s: string): string {
    TrimEnd(TrimStart(s))
  }

  /** The trimmed text is a slice of the input whose end characters are above U+0020. */
  lemma TrimShape(s: string) returns (i: nat, j: nat)
    ensures i <= j <= |s| && Trim(s) == s[i..j]
    ensures i < j ==> s[i] > ' ' && s[j - 1] > ' '
  {
    var t := TrimStart(s);
    var r := TrimEnd(t);
    i, j := |s| - |t|, |s| - |t| + |r|;
    PrefixOfSuffix(s, i, |r|);
    if r != [] {
      assert r[0] == s[i] && r[|r| - 1] == s[j - 1];
    }
  }

  lemma PrefixOfSuffix(s: string, i: nat, n: nat)
    requires i + n <= |s|
    ensures s[i..][..n] == s[i..i + n]
  {
  }

  lemma TrimUnchanged(s: string)
    requires s == [] || (s[0] > ' ' && s[|s| - 1] > ' ')
    ensures Trim(s) == s
  {
  }

  /** `s.isBlank()`. */
  predicate IsBlank(s: string) {
    forall k :: 0 <= k < |s| ==> IsJavaWhitespace(s[k])
  }

  // ---------------------------------------------------------------------
  // Splitting, as `String.split` with a one-character separator
  // ---------------------------------------------------------------------

  /** Separator positions: strictly increasing and inside `s` from `from`. */
  predicate Cuts(s: string, from: nat, cuts: seq<nat>) {
    && (forall k :: 0 <= k < |cuts| ==> from <= cuts[k] < |s|)
    && (forall k, l :: 0 <= k < l < |cuts| ==> cuts[k] < cuts[l])
  }

  /** The pieces of `s[from..]` between the separator positions `cuts`. */
  function Pieces(s: string, from: nat, cuts: seq<nat>): (r: seq<string>)
    requires from <= |s| && Cuts(s, from, cuts)
    ensures |r| == |cuts| + 1
    decreases |cuts|
  {
    if cuts == [] then [s[from..]]
    else [s[from..cuts[0]]] + Pieces(s, cuts[0] + 1, cuts[1..])
  }

  /** Java drops trailing empty strings from the result of `split`. */
  function DropTrailingEmpty(ps: seq<string>): (r: seq<string>)
    ensures |r| <= |ps| && r == ps[..|r|]
    ensures r == [] || r[|r| - 1] != []
    ensures forall k :: |r| <= k < |ps| ==> ps[k] == []
  {
    if ps != [] && ps[|ps| - 1] == [] then DropTrailingEmpty(ps[..|ps| - 1]) else ps
  }

  /**
   * `String.split` given the positions at which the separator matched:
   * no match yields the whole input (even when it is empty); otherwise the
   * pieces, less trailing empty ones.
   */
  function JavaSplit(s: string, cuts: seq<nat>): seq<string>
    requires Cuts(s, 0, cuts)
  {
    if cuts == [] then [s] else DropTrailingEmpty(Pieces(s, 0, cuts))
  }

  /** Every position at or after `from` that holds `c`, in order. */
  function CharCuts(s: string, c: char, from: nat): (r: seq<nat>)
    requires from <= |s|
    ensures Cuts(s, from, r)
    ensures forall k :: from <= k < |s| ==> (s[k] == c <==> k in r)
    ensures forall k :: k in r ==> s[k] == c
    decreases |s| - from
  {
    if from == |s| then []
    else if s[from] == c then [from] + CharCuts(s, c, from + 1)
    else CharCuts(s, c, from + 1)
  }

  /** `s.split(",")` and the like, for a separator that is one plain character. */
  function Split(s: string, c: char): seq<string> {
    JavaSplit(s, CharCuts(s, c, 0))
  }

  /** Re-joins pieces with a separator; the partner of `Pieces`. */
  function Join(ps: seq<string>, c: char): string {
    if ps == [] then []
    else if |ps| == 1 then ps[0]
    else ps[0] + [c] + Join(ps[1..], c)
  }

  lemma {:induction false} JoinPieces(s: string, from: nat, cuts: seq<nat>, c: char)
    requires from <= |s| && Cuts(s, from, cuts)
    requires forall k :: 0 <= k < |cuts| ==> s[cuts[k]] == c
    ensures Join(Pieces(s, from, cuts), c) == s[from..]
    decreases |cuts|
  {
    if cuts != [] {
      var rest := cuts[1..];
      assert Cuts(s, cuts[0] + 1, rest);
      JoinPieces(s, cuts[0] + 1, rest, c);
      var ps := Pieces(s, from, cuts);
      assert ps[1..] == Pieces(s, cuts[0] + 1, rest);
      assert s[from..] == s[from..cuts[0]] + [c] + s[cuts[0] + 1..];
    }
  }

  // ---------------------------------------------------------------------
  // Decimal rendering (`String.valueOf(int)`, `%d`)
  // ---------------------------------------------------------------------

  function DigitChar(d: nat): char
    requires d < 10
  {
    ('0' as int + d) as char
  }

  function NatToString(n: nat): (r: string)
    ensures |r| >= 1
    ensures forall k :: 0 <= k < |r| ==> IsAsciiDigit(r[k])
    decreases n
  {
    if n < 10 then [DigitChar(n)] else NatToString(n / 10) + [DigitChar(n % 10)]
  }

  function IntToString(i: int): string {
    if i < 0 then "-" + NatToString(-i) else NatToString(i)
  }
}
