/**
 * How one CSV data line becomes cell texts: the quote-aware split and the
 * token cleaning, shared by both reader versions.
 */
module CsvLine {
  import opened Text

  /** Number of `"` characters in `s[from..]`. */
  function QuotesFrom(s: string, from: nat): nat
    requires from <= |s|
    decreases |s| - from
  {
    if from == |s| then 0 else (if s[from] == '"' then 1 else 0) + QuotesFrom(s, from + 1)
  }

  /**
   * The split pattern `,(?=(?:[^"]*"[^"]*")*[^"]*$)` matches a comma exactly
   * when an even number of quotes follows it on the line.
   */
  predicate IsSeparator(line: string, k: nat)
    requires k < |line|
  {
    line[k] == ',' && QuotesFrom(line, k + 1) % 2 == 0
  }

  /** Positions of the separating commas at or after `from`, in order. */
  function SeparatorCuts(line: string, from: nat): (r: seq<nat>)
    requires from <= |line|
    ensures Cuts(line, from, r)
    ensures forall k :: from <= k < |line| ==> (IsSeparator(line, k) <==> k in r)
    ensures forall k :: k in r ==> line[k] == ','
    decreases |line| - from
  {
    if from == |line| then []
    else if IsSeparator(line, from) then [from] + SeparatorCuts(line, from + 1)
    else SeparatorCuts(line, from + 1)
  }

  /** The line terminators before which a Java `$` also matches. */
  predicate IsLineTerminator(c: char) {
    c == '\n' || c == '\r' || c == '\U{0085}' || c == '\U{2028}' || c == '\U{2029}'
  }

  /**
   * `replaceAll("^\"|\"$", "")`: drops a quote at the start and a quote at
   * the end (or just before a final line terminator), each at most once;
   * a lone `"` is consumed by the first alternative.
   */
  function StripQuotes(t: string): string {
    DropClosingQuote(DropOpeningQuote(t))
  }

  function DropOpeningQuote(t: string): string {
    if |t| > 0 && t[0] == '"' then t[1..] else t
  }

  function DropClosingQuote(a: string): string {
    if |a| > 0 && a[|a| - 1] == '"' then a[..|a| - 1]
    else if |a| > 1 && a[|a| - 2] == '"' && IsLineTerminator(a[|a| - 1]) then a[..|a| - 2] + [a[|a| - 1]]
    else a
  }

  /** The token cleaning of `splitAndClean`: trim, then strip the quotes. */
  function CleanToken(token: string): string {
    StripQuotes(Trim(token))
  }

  function CleanAll(tokens: seq<string>): (r: seq<string>)
    ensures |r| == |tokens|
    ensures forall k :: 0 <= k < |tokens| ==> r[k] == CleanToken(tokens[k])
  {
    seq(|tokens|, k requires 0 <= k < |tokens| => CleanToken(tokens[k]))
  }

  /** The pieces between separators, trailing empty pieces dropped. */
  function SplitFields(line: string): seq<string> {
    JavaSplit(line, SeparatorCuts(line, 0))
  }

  /** `splitAndClean`. */
  function SplitAndClean(line: string): seq<string> {
    CleanAll(SplitFields(line))
  }

  // ---------------------------------------------------------------------
  // Properties
  // ---------------------------------------------------------------------

  /** `y` is `x`, or `x` with one of its quotes deleted. */
  predicate DeletesAtMostOneQuote(x: string, y: string) {
    y == x || exists k :: 0 <= k < |x| && x[k] == '"' && y == x[..k] + x[k + 1..]
  }

  lemma OpeningDeletesAtMostOneQuote(t: string)
    ensures DeletesAtMostOneQuote(t, DropOpeningQuote(t))
  {
    if |t| > 0 && t[0] == '"' {
      assert t[1..] == t[..0] + t[0 + 1..];
    }
  }

  lemma ClosingDeletesAtMostOneQuote(t: string)
    ensures DeletesAtMostOneQuote(t, DropClosingQuote(t))
  {
    if |t| > 0 && t[|t| - 1] == '"' {
      var k := |t| - 1;
      assert t[..k] == t[..k] + t[k + 1..];
    } else if |t| > 1 && t[|t| - 2] == '"' && IsLineTerminator(t[|t| - 1]) {
      var k := |t| - 2;
      assert t[..k] + [t[k + 1]] == t[..k] + t[k + 1..];
    }
  }

  /**
   * Stripping deletes at most one quote near the start and one near the
   * end; every other character, doubled inner quotes included, stays.
   */
  lemma StripDeletesOnlyQuotes(t: string)
    ensures DeletesAtMostOneQuote(t, DropOpeningQuote(t))
    ensures DeletesAtMostOneQuote(DropOpeningQuote(t), StripQuotes(t))
    ensures |t| - 2 <= |StripQuotes(t)| <= |t|
  {
    OpeningDeletesAtMostOneQuote(t);
    ClosingDeletesAtMostOneQuote(DropOpeningQuote(t));
  }

  lemma StripQuoted(x: string)
    ensures StripQuotes("\"" + x + "\"") == x
  {
    var q := "\"" + x + "\"";
    var a := q[1..];
    assert a == x + "\"";
    assert a[..|a| - 1] == x;
  }

  /** A quoted cell loses exactly its surrounding quotes. */
  lemma CleanQuoted(x: string)
    ensures CleanToken("\"" + x + "\"") == x
  {
    var q := "\"" + x + "\"";
    assert q[0] == '"' && q[|q| - 1] == '"';
    TrimUnchanged(q);
    StripQuoted(x);
  }

  /** A trimmed cell without quotes at its ends is kept as is. */
  lemma CleanUnquoted(x: string)
    requires x == [] || (x[0] > ' ' && x[|x| - 1] > ' ')
    requires x == [] || (x[0] != '"' && x[|x| - 1] != '"')
    requires |x| < 2 || !(x[|x| - 2] == '"' && IsLineTerminator(x[|x| - 1]))
    ensures CleanToken(x) == x
  {
    TrimUnchanged(x);
  }

  /** Without any quote on the line, every comma separates. */
  lemma {:induction false} NoQuotesSplitsEveryComma(line: string, from: nat)
    requires from <= |line|
    requires forall k :: 0 <= k < |line| ==> line[k] != '"'
    ensures SeparatorCuts(line, from) == CharCuts(line, ',', from)
    decreases |line| - from
  {
    if from < |line| {
      NoQuotesFrom(line, from + 1);
      NoQuotesSplitsEveryComma(line, from + 1);
      var head: seq<nat> := if line[from] == ',' then [from] else [];
      assert IsSeparator(line, from) == (line[from] == ',');
      assert SeparatorCuts(line, from) == head + SeparatorCuts(line, from + 1);
      assert CharCuts(line, ',', from) == head + CharCuts(line, ',', from + 1);
    }
  }

  lemma {:induction false} NoQuotesFrom(line: string, from: nat)
    requires from <= |line|
    requires forall k :: 0 <= k < |line| ==> line[k] != '"'
    ensures QuotesFrom(line, from) == 0
    decreases |line| - from
  {
    if from < |line| {
      NoQuotesFrom(line, from + 1);
    }
  }

  /** So on a quote-free line the reader's split is the plain comma split. */
  lemma QuoteFreeLine(line: string)
    requires forall k :: 0 <= k < |line| ==> line[k] != '"'
    ensures SplitFields(line) == Split(line, ',')
  {
    NoQuotesSplitsEveryComma(line, 0);
  }

  /** Rejoining the pieces before trailing empties are dropped restores the line. */
  lemma RejoinFields(line: string)
    ensures Join(Pieces(line, 0, SeparatorCuts(line, 0)), ',') == line
  {
    JoinPieces(line, 0, SeparatorCuts(line, 0), ',');
  }

  const QUOTED_LINE: string := "\"x, y\",5"

  lemma QuotesOfExample()
    ensures QuotesFrom(QUOTED_LINE, 7) == 0
    ensures QuotesFrom(QUOTED_LINE, 4) == 1
    ensures QuotesFrom(QUOTED_LINE, 1) == 1
  {
    var line := QUOTED_LINE;
    assert QuotesFrom(line, 8) == 0;
    assert QuotesFrom(line, 6) == 0;
    assert QuotesFrom(line, 5) == 1;
    assert QuotesFrom(line, 3) == 1;
    assert QuotesFrom(line, 2) == 1;
  }

  lemma CutsOfExample()
    ensures SeparatorCuts(QUOTED_LINE, 0) == [6]
  {
    var line := QUOTED_LINE;
    QuotesOfExample();
    assert QuotesFrom(line, 0) == 2;
    assert SeparatorCuts(line, 7) == [];
    assert SeparatorCuts(line, 6) == [6];
    assert !IsSeparator(line, 3);
    assert SeparatorCuts(line, 3) == [6];
    assert SeparatorCuts(line, 2) == [6];
  }

  lemma FieldsOfExample()
    ensures SplitFields(QUOTED_LINE) == ["\"x, y\"", "5"]
  {
    var line := QUOTED_LINE;
    CutsOfExample();
    assert line[0..6] == "\"x, y\"" && line[7..] == "5";
    assert Pieces(line, 7, []) == ["5"];
    assert Pieces(line, 0, [6]) == [line[0..6]] + Pieces(line, 7, []);
  }

  lemma CleansOfExample()
    ensures CleanToken("\"x, y\"") == "x, y"
    ensures CleanToken("5") == "5"
  {
    assert "\"x, y\"" == "\"" + "x, y" + "\"";
    CleanQuoted("x, y");
    CleanUnquoted("5");
  }

  /** A comma inside a quoted cell is kept; the cell loses its quotes. */
  lemma QuotedCommaExample()
    ensures SplitAndClean(QUOTED_LINE) == ["x, y", "5"]
  {
    FieldsOfExample();
    CleansOfExample();
  }
}
