/**
 * Title normalisation and the similarity rule the film matcher applies to
 * two extracted titles.
 */
module Titles {
  import opened Wrappers
  import opened Text
  import opened Levenshtein

  // ---------------------------------------------------------------------
  // Normalisation: lowercase, drop [^a-z0-9\s], collapse \s+ to one space, trim
  // ---------------------------------------------------------------------

  predicate IsTitleChar(c: char) { ('a' <= c <= 'z') || ('0' <= c <= '9') }

  predicate KeptByFilter(c: char) { IsTitleChar(c) || IsRegexSpace(c) }

  /** `replaceAll("[^a-z0-9\\s]", "")`. */
  function StripPunctuation(s: string): (r: string)
    ensures forall k :: 0 <= k < |r| ==> KeptByFilter(r[k])
  {
    if s == [] then []
    else if KeptByFilter(s[0]) then [s[0]] + StripPunctuation(s[1..])
    else StripPunctuation(s[1..])
  }

  function DropSpaces(s: string): (r: string)
    ensures |r| <= |s| && r == s[|s| - |r|..]
    ensures r == [] || !IsRegexSpace(r[0])
  {
    if s != [] && IsRegexSpace(s[0]) then DropSpaces(s[1..]) else s
  }

  /** `replaceAll("\\s+", " ")`: each maximal run of `\s` becomes one space. */
  function CollapseSpaces(s: string): string
    decreases |s|
  {
    if s == [] then []
    else if IsRegexSpace(s[0]) then [' '] + CollapseSpaces(DropSpaces(s[1..]))
    else [s[0]] + CollapseSpaces(s[1..])
  }

  function NormalizeTitle(title: string): string {
    Trim(CollapseSpaces(StripPunctuation(Lower(title))))
  }

  /**
   * The shape every normalised title has: only `a-z`, `0-9` and single
   * interior spaces.
   */
  predicate IsNormalTitle(s: string) {
    && (forall k :: 0 <= k < |s| ==> IsTitleChar(s[k]) || s[k] == ' ')
    && (forall k :: 0 <= k < |s| - 1 ==> s[k] == ' ' ==> s[k + 1] != ' ')
    && (s != [] ==> s[0] != ' ' && s[|s| - 1] != ' ')
  }

  /** Characters and spacing of the collapsed text, before trimming. */
  predicate SingleSpaced(s: string) {
    && (forall k :: 0 <= k < |s| ==> IsTitleChar(s[k]) || s[k] == ' ')
    && (forall k :: 0 <= k < |s| - 1 ==> s[k] == ' ' ==> s[k + 1] != ' ')
  }

  lemma SingleSpacedCons(c: char, t: string)
    requires IsTitleChar(c) || c == ' '
    requires SingleSpaced(t)
    requires c == ' ' ==> t == [] || t[0] != ' '
    ensures SingleSpaced([c] + t)
  {
    var r := [c] + t;
    assert forall k :: 0 < k < |r| ==> r[k] == t[k - 1];
  }

  lemma {:induction false} CollapseSingleSpaced(s: string)
    requires forall k :: 0 <= k < |s| ==> KeptByFilter(s[k])
    ensures SingleSpaced(CollapseSpaces(s))
    ensures CollapseSpaces(s) != [] && CollapseSpaces(s)[0] == ' ' ==> s != [] && IsRegexSpace(s[0])
    decreases |s|
  {
    if s != [] {
      if IsRegexSpace(s[0]) {
        var rest := DropSpaces(s[1..]);
        assert forall k :: 0 <= k < |rest| ==> rest[k] == s[1..][|s| - 1 - |rest| + k];
        CollapseSingleSpaced(rest);
        var tail := CollapseSpaces(rest);
        assert CollapseSpaces(s) == [' '] + tail;
        SingleSpacedCons(' ', tail);
      } else {
        assert forall k :: 0 <= k < |s| - 1 ==> s[1..][k] == s[k + 1];
        CollapseSingleSpaced(s[1..]);
        assert CollapseSpaces(s) == [s[0]] + CollapseSpaces(s[1..]);
        SingleSpacedCons(s[0], CollapseSpaces(s[1..]));
      }
    }
  }

  lemma SliceSingleSpaced(s: string, i: nat, j: nat)
    requires i <= j <= |s| && SingleSpaced(s)
    ensures SingleSpaced(s[i..j])
  {
    var t := s[i..j];
    forall k | 0 <= k < |t|
      ensures IsTitleChar(t[k]) || t[k] == ' '
    {
      assert t[k] == s[i + k];
    }
    forall k | 0 <= k < |t| - 1
      ensures t[k] == ' ' ==> t[k + 1] != ' '
    {
      assert t[k] == s[i + k] && t[k + 1] == s[i + k + 1];
    }
  }

  lemma TrimSingleSpaced(s: string)
    requires SingleSpaced(s)
    ensures IsNormalTitle(Trim(s))
  {
    var i, j := TrimShape(s);
    NormalSlice(s, i, j);
  }

  /** A single-spaced slice that starts and ends above U+0020 is a normal title. */
  lemma NormalSlice(s: string, i: nat, j: nat)
    requires i <= j <= |s| && SingleSpaced(s)
    requires i < j ==> s[i] > ' ' && s[j - 1] > ' '
    ensures IsNormalTitle(s[i..j])
  {
    SliceSingleSpaced(s, i, j);
    if i < j {
      assert s[i..j][0] == s[i] && s[i..j][j - i - 1] == s[j - 1];
    }
  }

  /** Normalisation always yields a normal title. */
  lemma NormalizeIsNormal(title: string)
    ensures IsNormalTitle(NormalizeTitle(title))
  {
    var stripped := StripPunctuation(Lower(title));
    CollapseSingleSpaced(stripped);
    TrimSingleSpaced(CollapseSpaces(stripped));
  }

  lemma {:induction false} StripKeepsNormal(s: string)
    requires forall k :: 0 <= k < |s| ==> IsTitleChar(s[k]) || s[k] == ' '
    ensures StripPunctuation(s) == s
  {
    if s != [] {
      StripKeepsNormal(s[1..]);
    }
  }

  lemma {:induction false} LowerKeepsNormal(s: string)
    requires forall k :: 0 <= k < |s| ==> IsTitleChar(s[k]) || s[k] == ' '
    ensures Lower(s) == s
  {
  }

  lemma {:induction false} CollapseKeepsSingleSpaced(s: string)
    requires SingleSpaced(s)
    ensures CollapseSpaces(s) == s
    decreases |s|
  {
    if s != [] {
      assert SingleSpaced(s[1..]);
      CollapseKeepsSingleSpaced(s[1..]);
      if IsRegexSpace(s[0]) {
        assert s[1..] == [] || s[1] != ' ';
        assert DropSpaces(s[1..]) == s[1..];
      }
    }
  }

  /** A normal title is left unchanged by normalisation. */
  lemma NormalizeFixesNormal(s: string)
    requires IsNormalTitle(s)
    ensures NormalizeTitle(s) == s
  {
    LowerKeepsNormal(s);
    StripKeepsNormal(s);
    CollapseKeepsSingleSpaced(s);
    TrimUnchanged(s);
  }

  /** Normalising twice is the same as normalising once. */
  lemma NormalizeIdempotent(title: string)
    ensures NormalizeTitle(NormalizeTitle(title)) == NormalizeTitle(title)
  {
    NormalizeIsNormal(title);
    NormalizeFixesNormal(NormalizeTitle(title));
  }

  /** Case does not matter to normalisation. */
  lemma NormalizeIgnoresCase(title: string)
    ensures NormalizeTitle(Lower(title)) == NormalizeTitle(title)
  {
    LowerIdempotent(title);
  }

  // ---------------------------------------------------------------------
  // Similarity
  // ---------------------------------------------------------------------

  /**
   * `1 - distance / maxLength`, in exact arithmetic.  `None` stands for the
   * NaN of the floating-point division 0/0, which happens only for two
   * empty texts.
   */
  function CalculateSimilarity(s1: string, s2: string): (r: Option<real>)
    ensures r.None? <==> s1 == [] && s2 == []
    ensures r.Some? ==> r.value == 1.0 - (Distance(s1, s2) as real) / (Max(|s1|, |s2|) as real)
  {
    var maxLength := Max(|s1|, |s2|);
    if maxLength == 0 then None
    else Some(1.0 - (Distance(s1, s2) as real) / (maxLength as real))
  }

  const THRESHOLD: real := 0.85

  /** The decision on two titles that are both present. */
  predicate TitlesSimilar(title1: string, title2: string) {
    var n1 := NormalizeTitle(title1);
    var n2 := NormalizeTitle(title2);
    if n1 == n2 then true
    else
      match CalculateSimilarity(n1, n2)
      case Some(similarity) => similarity > THRESHOLD
      case None => false
  }

  /** The strict 0.85 threshold, stated in integers. */
  lemma ThresholdInIntegers(d: nat, m: nat)
    requires m > 0
    ensures 1.0 - (d as real) / (m as real) > THRESHOLD <==> 20 * d < 3 * m
  {
    var q := (d as real) / (m as real);
    assert q * (m as real) == d as real;
    if 1.0 - q > THRESHOLD {
      assert q < 0.15;
      assert (d as real) < 0.15 * (m as real);
    } else {
      assert q >= 0.15;
      assert (d as real) >= 0.15 * (m as real);
    }
  }

  /**
   * Titles equal after normalisation match (even two empty ones); otherwise
   * they match exactly when `20 * distance < 3 * maxLength`, and the
   * similarity is then never the 0/0 case.
   */
  lemma SimilarIff(title1: string, title2: string)
    ensures var n1 := NormalizeTitle(title1);
            var n2 := NormalizeTitle(title2);
            && (n1 == n2 ==> TitlesSimilar(title1, title2))
            && (n1 != n2 ==> CalculateSimilarity(n1, n2).Some?)
            && (n1 != n2 ==>
                  (TitlesSimilar(title1, title2) <==> 20 * Distance(n1, n2) < 3 * Max(|n1|, |n2|)))
  {
    var n1 := NormalizeTitle(title1);
    var n2 := NormalizeTitle(title2);
    if n1 != n2 {
      ThresholdInIntegers(Distance(n1, n2), Max(|n1|, |n2|));
    }
  }

  /** Matching does not depend on which title comes first. */
  lemma SimilarSymmetric(title1: string, title2: string)
    ensures TitlesSimilar(title1, title2) == TitlesSimilar(title2, title1)
  {
    var n1 := NormalizeTitle(title1);
    var n2 := NormalizeTitle(title2);
    DistanceProperties(n1, n2);
    SimilarIff(title1, title2);
    SimilarIff(title2, title1);
  }

  /** A distance of exactly 3/20 of the length is not enough. */
  lemma BoundaryRatioDoesNotMatch(title1: string, title2: string)
    requires NormalizeTitle(title1) != NormalizeTitle(title2)
    requires 20 * Distance(NormalizeTitle(title1), NormalizeTitle(title2))
             == 3 * Max(|NormalizeTitle(title1)|, |NormalizeTitle(title2)|)
    ensures !TitlesSimilar(title1, title2)
  {
    SimilarIff(title1, title2);
  }

  /** Two titles already in normal form match exactly when they are equal or within the ratio. */
  lemma NormalTitlesCompared(a: string, b: string)
    requires IsNormalTitle(a) && IsNormalTitle(b)
    ensures TitlesSimilar(a, b) <==> a == b || 20 * Distance(a, b) < 3 * Max(|a|, |b|)
  {
    NormalizeFixesNormal(a);
    NormalizeFixesNormal(b);
    SimilarOfNormalized(a, b, a, b);
  }

  /** `SimilarIff` with the normalised titles named. */
  lemma SimilarOfNormalized(title1: string, title2: string, n1: string, n2: string)
    requires n1 == NormalizeTitle(title1) && n2 == NormalizeTitle(title2)
    ensures TitlesSimilar(title1, title2) <==> n1 == n2 || 20 * Distance(n1, n2) < 3 * Max(|n1|, |n2|)
  {
    SimilarIff(title1, title2);
  }

  // ---------------------------------------------------------------------
  // Worked examples
  // ---------------------------------------------------------------------

  lemma StarWarsIsNormal()
    ensures IsNormalTitle("star wars") && IsNormalTitle("star wers") && IsNormalTitle("stur wors")
  {
  }

  /** "star wars" against "star wers": one substitution out of nine, a match. */
  lemma StarWarsMatchesStarWers()
    ensures TitlesSimilar("star wars", "star wers")
  {
    var a, b := "star wars", "star wers";
    StarWarsIsNormal();
    DistAtMostMismatches(a, b, 9);
    MismatchesOfWers();
    NormalTitlesCompared(a, b);
  }

  lemma MismatchesOfWers()
    ensures Mismatches("star wars", "star wers", 9) == 1
  {
    var a, b := "star wars", "star wers";
    assert Mismatches(a, b, 3) == 0;
    assert Mismatches(a, b, 6) == 0;
    assert Mismatches(a, b, 7) == 1;
  }

  lemma CountsOfA()
    ensures CountIn("star wars", 'a', 9) == 2
    ensures CountIn("stur wors", 'a', 9) == 0
  {
    var a, b := "star wars", "stur wors";
    assert CountIn(a, 'a', 3) == 1;
    assert CountIn(a, 'a', 6) == 1;
    assert CountIn(a, 'a', 7) == 2;
    assert CountIn(b, 'a', 3) == 0;
    assert CountIn(b, 'a', 6) == 0;
  }

  /** "star wars" against "stur wors": at least two edits out of nine, no match. */
  lemma StarWarsDoesNotMatchSturWors()
    ensures !TitlesSimilar("star wars", "stur wors")
  {
    var a, b := "star wars", "stur wors";
    StarWarsIsNormal();
    DistAtLeastCountGap(a, b, 'a', 9, 9);
    CountsOfA();
    NormalTitlesCompared(a, b);
  }
}
