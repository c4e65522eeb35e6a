/**
 * The N-Triples line cleaner: finding IRIs with spaces or tabs between
 * `<` and `>`, percent-encoding them, and the keep/clean/skip decision
 * for each input line.
 */
module NTriples {
  import opened Wrappers
  import opened Text

  predicate HasSpaceOrTab(u: string) {
    ' ' in u || '\t' in u
  }

  /**
   * `containsInvalidURI`, one segment per call: the next `<`, the first
   * `>` after it, and the text between.  A `<` without a closing `>` ends
   * the scan with `false`.
   */
  function Invalid(t: string): bool
    decreases |t|
  {
    match IndexOf(t, '<', 0)
    case None => false
    case Some(s) =>
      match IndexOf(t, '>', s)
      case None => false
      case Some(e) => HasSpaceOrTab(t[s + 1..e]) || Invalid(t[e + 1..])
  }

  /** The contents of the segments the scanner visits, up to the first unclosed `<`. */
  function Segments(t: string): seq<string>
    decreases |t|
  {
    match IndexOf(t, '<', 0)
    case None => []
    case Some(s) =>
      match IndexOf(t, '>', s)
      case None => []
      case Some(e) => [t[s + 1..e]] + Segments(t[e + 1..])
  }

  /** The scan reports an invalid IRI exactly when one visited segment holds a space or a tab. */
  lemma {:induction false} InvalidIffSegment(t: string)
    ensures Invalid(t) <==> exists k :: 0 <= k < |Segments(t)| && HasSpaceOrTab(Segments(t)[k])
    decreases |t|
  {
    match IndexOf(t, '<', 0)
    case None =>
    case Some(s) =>
      match IndexOf(t, '>', s)
      case None =>
      case Some(e) =>
        var tail := t[e + 1..];
        InvalidIffSegment(tail);
        assert Invalid(t) == (HasSpaceOrTab(t[s + 1..e]) || Invalid(tail));
        assert Segments(t) == [t[s + 1..e]] + Segments(tail);
        SomeSegmentCons(t[s + 1..e], Segments(tail));
  }

  /** A segment list in front of another has a blank-holding segment when either part does. */
  lemma SomeSegmentCons(u: string, rest: seq<string>)
    ensures (exists k :: 0 <= k < |[u] + rest| && HasSpaceOrTab(([u] + rest)[k]))
        <==> HasSpaceOrTab(u) || exists k :: 0 <= k < |rest| && HasSpaceOrTab(rest[k])
  {
    var segs := [u] + rest;
    if HasSpaceOrTab(u) {
      assert segs[0] == u;
    } else if exists k :: 0 <= k < |rest| && HasSpaceOrTab(rest[k]) {
      var k :| 0 <= k < |rest| && HasSpaceOrTab(rest[k]);
      assert segs[k + 1] == rest[k];
    }
    if exists k :: 0 <= k < |segs| && HasSpaceOrTab(segs[k]) {
      var k :| 0 <= k < |segs| && HasSpaceOrTab(segs[k]);
      if k > 0 {
        assert segs[k] == rest[k - 1];
      }
    }
  }

  // ---------------------------------------------------------------------
  // Cleaning
  // ---------------------------------------------------------------------

  /** What the four replacements do to one character of an IRI. */
  function CleanChar(c: char): string {
    if c == ' ' then "%20"
    else if c == '\t' then "%09"
    else if c == '\n' || c == '\r' then ""
    else [c]
  }

  /** `uri.replace(" ", "%20").replace("\t", "%09").replace("\n", "").replace("\r", "")`. */
  function CleanSegment(u: string): string {
    Replace(Replace(Replace(Replace(u, " ", "%20"), "\t", "%09"), "\n", ""), "\r", "")
  }

  /** Reference: each character of the IRI cleaned on its own. */
  function CleanEach(u: string): string {
    if u == [] then [] else CleanChar(u[0]) + CleanEach(u[1..])
  }

  function SegmentChain(u: string): string {
    ReplaceCharMap(ReplaceCharMap(ReplaceCharMap(ReplaceCharMap(u, ' ', "%20"), '\t', "%09"), '\n', ""), '\r', "")
  }

  lemma SegmentIsChain(u: string)
    ensures CleanSegment(u) == SegmentChain(u)
  {
    var a := ReplaceCharMap(u, ' ', "%20");
    ReplaceSingleChar(u, ' ', "%20");
    var b := ReplaceCharMap(a, '\t', "%09");
    ReplaceSingleChar(a, '\t', "%09");
    var c := ReplaceCharMap(b, '\n', "");
    ReplaceSingleChar(b, '\n', "");
    ReplaceSingleChar(c, '\r', "");
  }

  lemma SegmentChainAppend(x: string, y: string)
    ensures SegmentChain(x + y) == SegmentChain(x) + SegmentChain(y)
  {
    ReplaceCharMapAppend(x, y, ' ', "%20");
    var a, b := ReplaceCharMap(x, ' ', "%20"), ReplaceCharMap(y, ' ', "%20");
    ReplaceCharMapAppend(a, b, '\t', "%09");
    var c, d := ReplaceCharMap(a, '\t', "%09"), ReplaceCharMap(b, '\t', "%09");
    ReplaceCharMapAppend(c, d, '\n', "");
    var e, f := ReplaceCharMap(c, '\n', ""), ReplaceCharMap(d, '\n', "");
    ReplaceCharMapAppend(e, f, '\r', "");
  }

  lemma MapOne(c: char, t: char, r: string)
    ensures ReplaceCharMap([c], t, r) == if c == t then r else [c]
  {
    assert [c][1..] == [];
  }

  /** A three-character text without the target passes unchanged. */
  lemma MapThree(a: char, b: char, c: char, t: char, r: string)
    requires a != t && b != t && c != t
    ensures ReplaceCharMap([a, b, c], t, r) == [a, b, c]
  {
    assert [a, b, c][1..] == [b, c] && [b, c][1..] == [c];
    MapOne(c, t, r);
  }

  lemma SegmentChainOne(c: char)
    ensures SegmentChain([c]) == CleanChar(c)
  {
    MapOne(c, ' ', "%20");
    if c == ' ' {
      MapThree('%', '2', '0', '\t', "%09");
      MapThree('%', '2', '0', '\n', "");
      MapThree('%', '2', '0', '\r', "");
    } else {
      MapOne(c, '\t', "%09");
      if c == '\t' {
        MapThree('%', '0', '9', '\n', "");
        MapThree('%', '0', '9', '\r', "");
      } else {
        MapOne(c, '\n', "");
        if c == '\n' {
          assert ReplaceCharMap([], '\r', "") == [];
        } else {
          MapOne(c, '\r', "");
        }
      }
    }
  }

  /** The chained replacements clean each character independently. */
  lemma {:induction false} CleanSegmentPerCharacter(u: string)
    ensures CleanSegment(u) == CleanEach(u)
    decreases |u|
  {
    SegmentIsChain(u);
    if u != [] {
      assert u == [u[0]] + u[1..];
      SegmentChainAppend([u[0]], u[1..]);
      SegmentChainOne(u[0]);
      CleanSegmentPerCharacter(u[1..]);
      SegmentIsChain(u[1..]);
    }
  }

  /** A cleaned IRI has no space, tab, CR, LF, `<` or `>` it did not already have. */
  lemma {:induction false} CleanEachContents(u: string)
    ensures !HasSpaceOrTab(CleanEach(u))
    ensures '\n' !in CleanEach(u) && '\r' !in CleanEach(u)
    ensures ('<' in CleanEach(u) <==> '<' in u) && ('>' in CleanEach(u) <==> '>' in u)
    decreases |u|
  {
    if u != [] {
      CleanEachContents(u[1..]);
      assert u == [u[0]] + u[1..];
    }
  }

  /** An IRI with nothing to clean is left as it is. */
  lemma {:induction false} CleanEachIdentity(u: string)
    requires !HasSpaceOrTab(u) && '\n' !in u && '\r' !in u
    ensures CleanEach(u) == u
    decreases |u|
  {
    if u != [] {
      assert u == [u[0]] + u[1..];
      CleanEachIdentity(u[1..]);
    }
  }

  /**
   * `cleanURI`: text outside segments is copied; each segment's content
   * is cleaned; a `<` with no `>` after it makes the whole line `null`.
   */
  function Clean(t: string): Option<string>
    decreases |t|
  {
    if t == [] then Some([])
    else match IndexOf(t, '<', 0)
      case None => Some(t)
      case Some(s) =>
        match IndexOf(t, '>', s)
        case None => None
        case Some(e) =>
          match Clean(t[e + 1..])
          case None => None
          case Some(rest) => Some(t[..s + 1] + CleanSegment(t[s + 1..e]) + ">" + rest)
  }

  /** The `<` at `i` has no `>` anywhere after it. */
  predicate UnclosedAt(t: string, i: int) {
    0 <= i < |t| && t[i] == '<' && forall j :: i < j < |t| ==> t[j] != '>'
  }

  /** Some `<` has no `>` anywhere after it. */
  predicate HasUnclosed(t: string) {
    exists i :: 0 <= i < |t| && UnclosedAt(t, i)
  }

  lemma UnclosedInTail(t: string, e: nat, i: int)
    requires e < |t| && UnclosedAt(t[e + 1..], i)
    ensures UnclosedAt(t, e + 1 + i)
  {
    assert forall j :: e + 1 + i < j < |t| ==> t[j] == t[e + 1..][j - e - 1];
  }

  lemma UnclosedPastSegment(t: string, s: nat, e: nat, i: int)
    requires IndexOf(t, '<', 0) == Some(s) && IndexOf(t, '>', s) == Some(e) && UnclosedAt(t, i)
    ensures i > e && UnclosedAt(t[e + 1..], i - e - 1)
  {
    var tail := t[e + 1..];
    assert forall j :: i - e - 1 < j < |tail| ==> tail[j] == t[j + e + 1];
  }

  /** `cleanURI` gives up exactly on a line with an unclosed `<`. */
  lemma {:induction false} CleanFailsIffUnclosed(t: string)
    ensures Clean(t).None? <==> HasUnclosed(t)
    decreases |t|
  {
    if t == [] {
      assert !HasUnclosed(t);
    } else {
      match IndexOf(t, '<', 0)
      case None =>
        assert !HasUnclosed(t);
      case Some(s) =>
        match IndexOf(t, '>', s)
        case None =>
          assert UnclosedAt(t, s);
        case Some(e) =>
          var tail := t[e + 1..];
          CleanFailsIffUnclosed(tail);
          assert Clean(t).None? == Clean(tail).None?;
          if HasUnclosed(tail) {
            var i :| UnclosedAt(tail, i);
            UnclosedInTail(t, e, i);
          }
          if HasUnclosed(t) {
            var i :| UnclosedAt(t, i);
            UnclosedPastSegment(t, s, e, i);
          }
    }
  }

  /** A line without `<` is returned unchanged. */
  lemma NoSegmentsUnchanged(t: string)
    requires '<' !in t
    ensures Clean(t) == Some(t)
  {
  }

  /** `indexOf` finds the first occurrence. */
  lemma IndexOfAt(t: string, c: char, from: nat, i: nat)
    requires from <= i < |t| && t[i] == c && forall k :: from <= k < i ==> t[k] != c
    ensures IndexOf(t, c, from) == Some(i)
  {
  }

  /** In plain text, one `<`, a content without `>`, then `>`: the scanner opens at the `<`. */
  lemma ScanOpen(p: string, rest: string)
    requires '<' !in p
    ensures IndexOf(p + ['<'] + rest, '<', 0) == Some(|p|)
  {
    var out := p + ['<'] + rest;
    assert forall k :: 0 <= k < |p| ==> out[k] == p[k];
    IndexOfAt(out, '<', 0, |p|);
  }

  /** ... and closes at the first `>` after the content. */
  lemma ScanClose(p: string, c: string, rest: string)
    requires '>' !in c
    ensures IndexOf(p + ['<'] + c + ['>'] + rest, '>', |p|) == Some(|p| + 1 + |c|)
  {
    var out := p + ['<'] + c + ['>'] + rest;
    assert forall k :: |p| < k < |p| + 1 + |c| ==> out[k] == c[k - |p| - 1];
    IndexOfAt(out, '>', |p|, |p| + 1 + |c|);
  }

  lemma ScanParts(p: string, c: string, rest: string)
    ensures var out := p + ['<'] + c + ['>'] + rest;
      && out[|p| + 1..|p| + 1 + |c|] == c
      && out[|p| + 1 + |c| + 1..] == rest
      && out[..|p| + 1] == p + ['<']
      && out[..|p|] == p
  {
  }

  /** A cleaned line holds no invalid IRI, and cleaning it again changes nothing. */
  lemma {:induction false} CleanIsValidAndStable(t: string)
    requires Clean(t).Some?
    ensures !Invalid(Clean(t).value)
    ensures Clean(Clean(t).value) == Clean(t)
    decreases |t|
  {
    if t != [] {
      match IndexOf(t, '<', 0)
      case None =>
        assert forall k :: 0 <= k < |t| ==> t[k] != '<';
      case Some(s) =>
        var e := IndexOf(t, '>', s).value;
        CleanIsValidAndStable(t[e + 1..]);
        CleanStep(t, s, e);
    }
  }

  /** One step of `cleanURI`: the text before the segment, the cleaned content, the cleaned rest. */
  lemma CleanShape(t: string, s: nat, e: nat)
    requires t != [] && IndexOf(t, '<', 0) == Some(s) && IndexOf(t, '>', s) == Some(e)
    requires Clean(t[e + 1..]).Some?
    ensures Clean(t) == Some(t[..s] + ['<'] + CleanEach(t[s + 1..e]) + ['>'] + Clean(t[e + 1..]).value)
  {
    CleanUnfold(t, s, e);
    CleanSegmentPerCharacter(t[s + 1..e]);
    assert t[..s + 1] == t[..s] + ['<'];
  }

  lemma CleanUnfold(t: string, s: nat, e: nat)
    requires t != [] && IndexOf(t, '<', 0) == Some(s) && IndexOf(t, '>', s) == Some(e)
    requires Clean(t[e + 1..]).Some?
    ensures Clean(t) == Some(t[..s + 1] + CleanSegment(t[s + 1..e]) + ">" + Clean(t[e + 1..]).value)
  {
  }

  /** One step of the scan, read at a known segment. */
  lemma InvalidShape(t: string, s: nat, e: nat)
    requires IndexOf(t, '<', 0) == Some(s) && IndexOf(t, '>', s) == Some(e)
    ensures Invalid(t) == (HasSpaceOrTab(t[s + 1..e]) || Invalid(t[e + 1..]))
  {
  }

  /** Plain text, a clean segment and an already clean rest are kept by the cleaner and pass the scan. */
  lemma CleanOnClean(out: string, p: string, c: string, rest: string)
    requires out == p + ['<'] + c + ['>'] + rest
    requires '<' !in p && '>' !in c && !HasSpaceOrTab(c) && '\n' !in c && '\r' !in c
    requires !Invalid(rest) && Clean(rest) == Some(rest)
    ensures !Invalid(out)
    ensures Clean(out) == Some(out)
  {
    ScanOpen(p, c + ['>'] + rest);
    assert p + ['<'] + (c + ['>'] + rest) == out;
    ScanClose(p, c, rest);
    ScanParts(p, c, rest);
    var s, e := |p|, |p| + 1 + |c|;
    assert IndexOf(out, '<', 0) == Some(s);
    assert IndexOf(out, '>', s) == Some(e);
    assert out[s + 1..e] == c;
    assert out[e + 1..] == rest;
    InvalidShape(out, s, e);
    assert Invalid(out) == (HasSpaceOrTab(c) || Invalid(rest));
    CleanEachIdentity(c);
    CleanShape(out, s, e);
    assert Clean(out) == Some(p + ['<'] + c + ['>'] + rest);
  }

  lemma CleanStep(t: string, s: nat, e: nat)
    requires t != [] && IndexOf(t, '<', 0) == Some(s) && IndexOf(t, '>', s) == Some(e)
    requires Clean(t[e + 1..]).Some?
    requires !Invalid(Clean(t[e + 1..]).value) && Clean(Clean(t[e + 1..]).value) == Clean(t[e + 1..])
    ensures Clean(t).Some?
    ensures !Invalid(Clean(t).value)
    ensures Clean(Clean(t).value) == Clean(t)
  {
    var u := t[s + 1..e];
    CleanShape(t, s, e);
    CleanEachContents(u);
    assert '<' !in t[..s];
    assert '>' !in u;
    var rest := Clean(t[e + 1..]).value;
    CleanOnClean(t[..s] + ['<'] + CleanEach(u) + ['>'] + rest, t[..s], CleanEach(u), rest);
  }

  // ---------------------------------------------------------------------
  // The line loop of `cleanAndConvert`
  // ---------------------------------------------------------------------

  datatype Outcome =
    | Dropped           // blank or a comment: neither written nor counted as skipped
    | Kept              // written as it is
    | Cleaned(text: string)
    | Skipped           // invalid and not cleanable

  function Decide(line: string): (r: Outcome)
    ensures r.Dropped? <==> Trim(line) == [] || (|line| > 0 && line[0] == '#')
    ensures r.Kept? ==> !Invalid(line)
    ensures r.Cleaned? ==> Invalid(line) && Clean(line) == Some(r.text) && !Invalid(r.text)
    ensures r.Skipped? ==> Invalid(line) && HasUnclosed(line)
  {
    if Trim(line) == [] || (|line| > 0 && line[0] == '#') then Dropped
    else if Invalid(line) then
      CleanFailsIffUnclosed(line);
      match Clean(line)
      case None => Skipped
      case Some(c) =>
        CleanIsValidAndStable(line);
        Cleaned(c)
    else Kept
  }

  /** Lines written, lines skipped, lines read. */
  datatype Report = Report(written: seq<string>, skipped: nat, total: nat)

  function Process(lines: seq<string>): (r: Report)
    ensures r.total == |lines|
    ensures |r.written| + r.skipped <= r.total
    ensures forall k :: 0 <= k < |r.written| ==> !Invalid(r.written[k])
  {
    if lines == [] then Report([], 0, 0)
    else Tally(lines[0], Decide(lines[0]), Process(lines[1..]))
  }

  /** The report with one more line in front, decided as `o`. */
  function Tally(line: string, o: Outcome, rest: Report): (r: Report)
    requires o.Kept? ==> !Invalid(line)
    requires o.Cleaned? ==> !Invalid(o.text)
    requires |rest.written| + rest.skipped <= rest.total
    requires forall k :: 0 <= k < |rest.written| ==> !Invalid(rest.written[k])
    ensures r.total == rest.total + 1
    ensures |r.written| + r.skipped <= r.total
    ensures forall k :: 0 <= k < |r.written| ==> !Invalid(r.written[k])
  {
    match o
    case Dropped => Report(rest.written, rest.skipped, rest.total + 1)
    case Kept => Report([line] + rest.written, rest.skipped, rest.total + 1)
    case Cleaned(c) => Report([c] + rest.written, rest.skipped, rest.total + 1)
    case Skipped => Report(rest.written, rest.skipped + 1, rest.total + 1)
  }

  /** `out` is what `line` puts in the cleaned file: the line itself, or its cleaned form. */
  predicate Writes(line: string, out: string) {
    (Decide(line) == Kept && out == line) || Decide(line) == Cleaned(out)
  }

  /** What one line contributes to the cleaned file. */
  function Emitted(line: string): (r: seq<string>)
    ensures forall out :: out in r <==> Writes(line, out)
  {
    match Decide(line)
    case Kept => [line]
    case Cleaned(c) => [c]
    case _ => []
  }

  /** The report of a non-empty input: the first line's contribution, then the rest's. */
  lemma ProcessStep(lines: seq<string>)
    requires lines != []
    ensures Process(lines).written == Emitted(lines[0]) + Process(lines[1..]).written
    ensures Process(lines).skipped == (if Decide(lines[0]).Skipped? then 1 else 0) + Process(lines[1..]).skipped
  {
  }

  /**
   * The written lines are exactly the kept lines and the cleaned forms of
   * the invalid ones, and nothing is counted as skipped unless some line
   * had an unclosed `<`.
   */
  lemma {:induction false} ProcessContents(lines: seq<string>)
    ensures forall out :: out in Process(lines).written <==>
      exists j :: 0 <= j < |lines| && Writes(lines[j], out)
    ensures Process(lines).skipped == 0 <==> forall j :: 0 <= j < |lines| ==> !Decide(lines[j]).Skipped?
  {
    if lines != [] {
      var tail := lines[1..];
      ProcessContents(tail);
      ProcessStep(lines);
      var written := Process(lines).written;
      var first := Emitted(lines[0]);
      assert written == first + Process(tail).written;
      forall out | out in written
        ensures exists j :: 0 <= j < |lines| && Writes(lines[j], out)
      {
        if out in first {
          assert Writes(lines[0], out);
        } else {
          assert out in Process(tail).written;
          var j :| 0 <= j < |tail| && Writes(tail[j], out);
          assert tail[j] == lines[j + 1];
        }
      }
      forall out, j | 0 <= j < |lines| && Writes(lines[j], out)
        ensures out in written
      {
        if j == 0 {
          assert out in first;
        } else {
          assert tail[j - 1] == lines[j];
          assert out in Process(tail).written;
        }
      }
      forall j | 1 <= j < |lines|
        ensures lines[j] == tail[j - 1]
      {
      }
    }
  }

  /** A valid, non-blank, non-comment line is written verbatim. */
  lemma ValidLineKept(line: string)
    requires Trim(line) != [] && !(|line| > 0 && line[0] == '#') && !Invalid(line)
    ensures Decide(line) == Kept && Process([line]).written == [line]
  {
  }

  /** The scan misses a space after an unclosed `<`, so such a line counts as valid. */
  lemma UnclosedSpaceIsValid(u: string)
    requires '>' !in u && HasSpaceOrTab(u)
    ensures !Invalid("<" + u)
    ensures Clean("<" + u).None?
  {
    var t := "<" + u;
    assert IndexOf(t, '<', 0) == Some(0);
    assert forall k :: 0 < k < |t| ==> t[k] == u[k - 1];
  }
}
