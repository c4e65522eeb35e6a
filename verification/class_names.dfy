/**
 * The class name of a Java source text: the package declaration and the
 * class declaration found by two regular expressions, joined by a dot.
 * Each regular expression is modelled by what its first (leftmost) match
 * captures.
 */
module ClassNames {
  import opened Wrappers
  import opened Text
  import opened Schema

  /** The end of the run of characters satisfying `p` that starts at `from`. */
  function RunEnd(s: string, from: nat, p: char -> bool): (r: nat)
    requires from <= |s|
    ensures from <= r <= |s|
    ensures forall k :: from <= k < r ==> p(s[k])
    ensures r < |s| ==> !p(s[r])
    decreases |s| - from
  {
    if from < |s| && p(s[from]) then RunEnd(s, from + 1, p) else from
  }

  predicate IsNameOrDot(c: char) {
    IsWordChar(c) || c == '.'
  }

  /** `s` has the keyword `kw` at position `i`. */
  predicate HasAt(s: string, i: nat, kw: string) {
    i + |kw| <= |s| && s[i..i + |kw|] == kw
  }

  // ---------------------------------------------------------------------
  // extractPackage: `package\s+([\w.]+)\s*;`
  // ---------------------------------------------------------------------

  /**
   * The regular expression tried at `i`.  Neither greedy run can give back
   * a character usefully: what follows `\s+` must be a name character and
   * what follows `[\w.]+` must be a space or `;`, so each run is maximal.
   */
  function PackageAt(s: string, i: nat): Option<string>
    requires i <= |s|
  {
    if !HasAt(s, i, "package") then None
    else
      var b := RunEnd(s, i + 7, IsRegexSpace);
      var c := RunEnd(s, b, IsNameOrDot);
      var d := RunEnd(s, c, IsRegexSpace);
      if b > i + 7 && c > b && d < |s| && s[d] == ';' then Some(s[b..c]) else None
  }

  /**
   * A match of the package pattern at `i`: `package`, spaces up to `b`,
   * name characters up to `c`, spaces up to `d`, and `;` at `d`.
   */
  predicate PackageMatch(s: string, i: nat, b: int, c: int, d: int) {
    && HasAt(s, i, "package")
    && i + 7 < b < c <= d < |s|
    && (forall k :: i + 7 <= k < b ==> IsRegexSpace(s[k]))
    && (forall k :: b <= k < c ==> IsNameOrDot(s[k]))
    && (forall k :: c <= k < d ==> IsRegexSpace(s[k]))
    && s[d] == ';'
  }

  /** The scanner at `i` finds exactly the matches of the pattern, and captures the name between `b` and `c`. */
  lemma PackageAtMatches(s: string, i: nat)
    requires i <= |s|
    ensures PackageAt(s, i).Some? <==> exists b: int, c: int, d: int :: PackageMatch(s, i, b, c, d)
    ensures forall b: int, c: int, d: int :: PackageMatch(s, i, b, c, d) ==> PackageAt(s, i) == Some(s[b..c])
  {
    if HasAt(s, i, "package") {
      var b := RunEnd(s, i + 7, IsRegexSpace);
      var c := RunEnd(s, b, IsNameOrDot);
      var d := RunEnd(s, c, IsRegexSpace);
      if PackageAt(s, i).Some? {
        assert PackageMatch(s, i, b, c, d);
      }
      forall b': int, c': int, d': int | PackageMatch(s, i, b', c', d')
        ensures PackageAt(s, i) == Some(s[b'..c'])
      {
        // A name character ends the spaces, a space or `;` ends the name.
        assert !IsRegexSpace(s[b']);
        assert b == b';
        assert !IsNameOrDot(s[c']) by {
          if c' < d' {
            assert IsRegexSpace(s[c']);
          }
        }
        assert c == c';
        assert d == d';
      }
    }
  }

  /** Where the package pattern matches, position by position (the end of the text included). */
  function PackageHits(s: string): (r: seq<bool>)
    ensures |r| == |s| + 1 && forall j :: 0 <= j <= |s| ==> r[j] == PackageAt(s, j).Some?
  {
    seq(|s| + 1, j requires 0 <= j <= |s| => PackageAt(s, j).Some?)
  }

  /** The first position from `i` where the package pattern matches. */
  function FirstPackage(s: string, i: nat): (r: Option<nat>)
    requires i <= |s|
    ensures r.None? ==> forall j :: i <= j <= |s| ==> PackageAt(s, j).None?
    ensures r.Some? ==> i <= r.value <= |s| && PackageAt(s, r.value).Some?
    ensures r.Some? ==> forall j :: i <= j < r.value ==> PackageAt(s, j).None?
  {
    FirstTrue(PackageHits(s), i)
  }

  /** `extractPackage`: the name captured by the first match, or `""` when nothing matches. */
  function ExtractPackage(content: string): (r: string)
    ensures FirstPackage(content, 0).None? ==> r == ""
    ensures FirstPackage(content, 0).Some? ==> Some(r) == PackageAt(content, FirstPackage(content, 0).value)
    ensures r != "" <==> FirstPackage(content, 0).Some?
    ensures forall k :: 0 <= k < |r| ==> IsNameOrDot(r[k])
  {
    match FirstPackage(content, 0)
    case Some(j) =>
      var b := RunEnd(content, j + 7, IsRegexSpace);
      var c := RunEnd(content, b, IsNameOrDot);
      assert PackageAt(content, j) == Some(content[b..c]);
      PackageAt(content, j).value
    case None => ""
  }

  // ---------------------------------------------------------------------
  // extractSimpleClassName:
  // `(?:public\s+)?(?:abstract\s+)?(?:final\s+)?class\s+(\w+)`
  // ---------------------------------------------------------------------

  /** `class\s+(\w+)` at `k`. */
  function ClassAt(s: string, k: nat): (r: Option<string>)
    requires k <= |s|
    ensures r.Some? ==> r.value != [] && forall j :: 0 <= j < |r.value| ==> IsWordChar(r.value[j])
  {
    if !HasAt(s, k, "class") then None
    else
      var b := RunEnd(s, k + 5, IsRegexSpace);
      var c := RunEnd(s, b, IsWordChar);
      if b > k + 5 && c > b then Some(s[b..c]) else None
  }

  /**
   * An optional `kw\s+` at `pos`: where the pattern continues.  If the
   * keyword is there the greedy group takes it; skipping it instead would
   * leave the next part to match at the keyword's first letter, which no
   * later part starts with (`p`, `a`, `f`, `c` all differ).
   */
  function Optional(s: string, pos: nat, kw: string): (r: nat)
    requires pos <= |s|
    ensures pos <= r <= |s|
  {
    if HasAt(s, pos, kw) && RunEnd(s, pos + |kw|, IsRegexSpace) > pos + |kw|
    then RunEnd(s, pos + |kw|, IsRegexSpace)
    else pos
  }

  /** The optional groups of the pattern, in order. */
  const MODIFIERS: seq<string> := ["public", "abstract", "final"]

  predicate IsModifier(kw: string) {
    kw == "public" || kw == "abstract" || kw == "final"
  }

  lemma AllModifiers()
    ensures forall k :: 0 <= k < |MODIFIERS| ==> IsModifier(MODIFIERS[k])
  {
  }

  /** Where the pattern continues after the optional groups `kws`, tried in order from `pos`. */
  function Modifiers(s: string, pos: nat, kws: seq<string>): (r: nat)
    requires pos <= |s|
    ensures pos <= r <= |s|
    decreases |kws|
  {
    if kws == [] then pos else Modifiers(s, Optional(s, pos, kws[0]), kws[1..])
  }

  /** The full pattern tried at `i`: the modifiers it consumes, then `class`. */
  function ClassPatternAt(s: string, i: nat): Option<string>
    requires i <= |s|
  {
    ClassAt(s, Modifiers(s, i, MODIFIERS))
  }

  /** Where the full pattern matches, position by position. */
  function PatternHits(s: string): (r: seq<bool>)
    ensures |r| == |s| + 1 && forall j :: 0 <= j <= |s| ==> r[j] == ClassPatternAt(s, j).Some?
  {
    seq(|s| + 1, j requires 0 <= j <= |s| => ClassPatternAt(s, j).Some?)
  }

  /** The first position from `i` where the full pattern matches. */
  function FirstPattern(s: string, i: nat): (r: Option<nat>)
    requires i <= |s|
    ensures r.None? ==> forall j :: i <= j <= |s| ==> ClassPatternAt(s, j).None?
    ensures r.Some? ==> i <= r.value <= |s| && ClassPatternAt(s, r.value).Some?
    ensures r.Some? ==> forall j :: i <= j < r.value ==> ClassPatternAt(s, j).None?
  {
    FirstTrue(PatternHits(s), i)
  }

  /** Where `class\s+\w+` alone matches, position by position. */
  function KeywordHits(s: string): (r: seq<bool>)
    ensures |r| == |s| + 1 && forall j :: 0 <= j <= |s| ==> r[j] == ClassAt(s, j).Some?
  {
    seq(|s| + 1, j requires 0 <= j <= |s| => ClassAt(s, j).Some?)
  }

  /** The first position from `i` where `class\s+\w+` alone matches. */
  function FirstKeyword(s: string, i: nat): (r: Option<nat>)
    requires i <= |s|
    ensures r.None? ==> forall j :: i <= j <= |s| ==> ClassAt(s, j).None?
    ensures r.Some? ==> i <= r.value <= |s| && ClassAt(s, r.value).Some?
    ensures r.Some? ==> forall j :: i <= j < r.value ==> ClassAt(s, j).None?
  {
    FirstTrue(KeywordHits(s), i)
  }

  /** `extractSimpleClassName`: the first match's capture, or an illegal argument. */
  function ExtractSimpleClassName(content: string): (r: Result<string, Failure>)
    ensures r.Err? <==> FirstPattern(content, 0).None?
    ensures r.Err? ==> r.error == IllegalArgument
    ensures r.Ok? ==> Some(r.value) == ClassPatternAt(content, FirstPattern(content, 0).value)
    ensures r.Ok? ==> r.value != [] && forall k :: 0 <= k < |r.value| ==> IsWordChar(r.value[k])
  {
    match FirstPattern(content, 0)
    case Some(j) => Ok(ClassPatternAt(content, j).value)
    case None => Err(IllegalArgument)
  }

  /** No `class` keyword starts inside the text an optional modifier consumes. */
  lemma OptionalHasNoClass(s: string, pos: nat, kw: string, q: nat)
    requires pos <= |s| && IsModifier(kw)
    requires pos <= q < Optional(s, pos, kw)
    ensures !HasAt(s, q, "class")
  {
    if q + 5 <= |s| {
      assert s[q..q + 5][0] == s[q] && s[q..q + 5][1] == s[q + 1];
      if q < pos + |kw| {
        assert s[pos..pos + |kw|][q - pos] == s[q];
        if q + 1 < pos + |kw| {
          assert s[pos..pos + |kw|][q + 1 - pos] == s[q + 1];
        } else {
          assert IsRegexSpace(s[q + 1]);
        }
      } else {
        assert IsRegexSpace(s[q]);
      }
    }
  }

  /** A modifier consumes nothing where a `class` keyword starts. */
  lemma OptionalAtClass(s: string, k: nat, kw: string)
    requires k <= |s| && HasAt(s, k, "class") && IsModifier(kw)
    ensures Optional(s, k, kw) == k
  {
    assert s[k..k + 5][0] == s[k];
    if k + |kw| <= |s| {
      assert s[k..k + |kw|][0] == s[k];
    }
  }

  /** The text the optional groups consume holds no `class` keyword. */
  lemma {:induction false} ModifiersHaveNoClass(s: string, pos: nat, kws: seq<string>, q: nat)
    requires pos <= |s| && forall k :: 0 <= k < |kws| ==> IsModifier(kws[k])
    requires pos <= q < Modifiers(s, pos, kws)
    ensures !HasAt(s, q, "class")
    decreases |kws|
  {
    var next := Optional(s, pos, kws[0]);
    if q < next {
      OptionalHasNoClass(s, pos, kws[0], q);
    } else {
      assert forall k :: 0 <= k < |kws[1..]| ==> kws[1..][k] == kws[k + 1];
      ModifiersHaveNoClass(s, next, kws[1..], q);
    }
  }

  /** Where a `class` keyword starts, the optional groups consume nothing. */
  lemma {:induction false} ModifiersAtClass(s: string, k: nat, kws: seq<string>)
    requires k <= |s| && HasAt(s, k, "class") && forall j :: 0 <= j < |kws| ==> IsModifier(kws[j])
    ensures Modifiers(s, k, kws) == k
    decreases |kws|
  {
    if kws != [] {
      OptionalAtClass(s, k, kws[0]);
      assert forall j :: 0 <= j < |kws[1..]| ==> kws[1..][j] == kws[j + 1];
      ModifiersAtClass(s, k, kws[1..]);
    }
  }

  /** Where `class` matches on its own, the full pattern matches too, with no modifier consumed. */
  lemma ClassPatternAtClass(s: string, k: nat)
    requires k <= |s| && ClassAt(s, k).Some?
    ensures ClassPatternAt(s, k) == ClassAt(s, k)
  {
    AllModifiers();
    ModifiersAtClass(s, k, MODIFIERS);
  }

  /** Before the `class` keyword the pattern lands on, no `class\s+\w+` matches; there it does. */
  lemma NoKeywordBefore(s: string, i: nat, p: nat)
    requires i <= |s| && FirstPattern(s, i) == Some(p)
    ensures Modifiers(s, p, MODIFIERS) <= |s| && ClassAt(s, Modifiers(s, p, MODIFIERS)).Some?
    ensures forall q :: i <= q < Modifiers(s, p, MODIFIERS) ==> ClassAt(s, q).None?
  {
    AllModifiers();
    forall q | i <= q < Modifiers(s, p, MODIFIERS)
      ensures ClassAt(s, q).None?
    {
      if q < p {
        if ClassAt(s, q).Some? {
          ClassPatternAtClass(s, q);
        }
      } else {
        ModifiersHaveNoClass(s, p, MODIFIERS, q);
      }
    }
  }

  /** Where the full pattern first matches, the plain scan finds the `class` keyword after the modifiers. */
  lemma PatternLandsOnKeyword(s: string, i: nat, p: nat)
    requires i <= |s| && FirstPattern(s, i) == Some(p)
    ensures FirstKeyword(s, i) == Some(Modifiers(s, p, MODIFIERS))
  {
    var p3 := Modifiers(s, p, MODIFIERS);
    NoKeywordBefore(s, i, p);
    var hits := KeywordHits(s);
    assert hits[p3];
    assert forall q :: i <= q < p3 ==> !hits[q];
    FirstTrueAt(hits, i, p3);
  }

  /**
   * Scanning with and without the optional modifiers captures the same
   * name: the modifiers contain no `class` keyword, so the full pattern
   * lands on the first `class` that matches, or on none.
   */
  lemma FirstSame(s: string, i: nat)
    requires i <= |s|
    ensures FirstPattern(s, i).None? <==> FirstKeyword(s, i).None?
    ensures FirstPattern(s, i).Some? ==> ClassPatternAt(s, FirstPattern(s, i).value) == ClassAt(s, FirstKeyword(s, i).value)
  {
    var k := FirstKeyword(s, i);
    if k.Some? {
      ClassPatternAtClass(s, k.value);
    }
    var p := FirstPattern(s, i);
    if p.Some? {
      PatternLandsOnKeyword(s, i, p.value);
    }
  }

  /** The optional modifiers never change which name is captured: it is the name after the first `class` that matches. */
  lemma ModifiersIrrelevant(content: string)
    ensures ExtractSimpleClassName(content).Err? <==> FirstKeyword(content, 0).None?
    ensures ExtractSimpleClassName(content).Ok? ==>
      Some(ExtractSimpleClassName(content).value) == ClassAt(content, FirstKeyword(content, 0).value)
  {
    FirstSame(content, 0);
  }

  // ---------------------------------------------------------------------
  // extractClassName
  // ---------------------------------------------------------------------

  /** `extractClassName` on the file's content: `pkg.Name`, or `Name` without a package. */
  function ExtractClassName(content: string): (r: Result<string, Failure>)
    ensures r.Err? <==> ExtractSimpleClassName(content).Err?
    ensures r.Ok? && ExtractPackage(content) == "" ==> r.value == ExtractSimpleClassName(content).value
    ensures r.Ok? && ExtractPackage(content) != "" ==>
      r.value == ExtractPackage(content) + "." + ExtractSimpleClassName(content).value
  {
    var pkg := ExtractPackage(content);
    var name :- ExtractSimpleClassName(content);
    Ok((if pkg != "" then pkg + "." else "") + name)
  }

  /** A dotted join splits back at the last dot when the right part has no dot. */
  lemma DotJoinSplits(pkg: string, name: string, q: string)
    requires forall k :: 0 <= k < |name| ==> IsWordChar(name[k])
    requires q == (if pkg != "" then pkg + "." else "") + name
    ensures pkg == "" ==> LastIndexOf(q, '.') == -1 && q == name
    ensures pkg != "" ==> LastIndexOf(q, '.') == |pkg| && q[..|pkg|] == pkg && q[|pkg| + 1..] == name
  {
    if pkg == "" {
      assert forall k :: 0 <= k < |q| ==> IsWordChar(q[k]);
    } else {
      assert q[|pkg|] == '.';
      assert forall k :: |pkg| < k < |q| ==> q[k] == name[k - |pkg| - 1];
    }
  }

  /** The qualified name splits back at its last dot into the package and the simple name. */
  lemma QualifiedNameSplits(content: string)
    requires ExtractClassName(content).Ok?
    ensures var q := ExtractClassName(content).value;
      var dot := LastIndexOf(q, '.');
      && (ExtractPackage(content) == "" ==> dot == -1 && q == ExtractSimpleClassName(content).value)
      && (ExtractPackage(content) != "" ==>
            (dot >= 0 && q[..dot] == ExtractPackage(content) && q[dot + 1..] == ExtractSimpleClassName(content).value))
  {
    var pkg := ExtractPackage(content);
    var name := ExtractSimpleClassName(content).value;
    DotJoinSplits(pkg, name, ExtractClassName(content).value);
  }
}
