/**
 * The string escaping of the Turtle writer, and the string escapes of
 * section 6.4 of the W3C RDF 1.1 Turtle recommendation that undo it.
 */
module TurtleEscape {
  import opened Wrappers
  import opened Text

  /**
   * The five chained `String.replace` calls: backslash first, then double
   * quote, line feed, carriage return and tab.
   */
  function Escape(s: string): string {
    Replace(Replace(Replace(Replace(Replace(s, "\\", "\\\\"), "\"", "\\\""), "\n", "\\n"), "\r", "\\r"), "\t", "\\t")
  }

  /** What the chain does to one character. */
  function EscapeChar(c: char): string {
    match c
    case '\\' => "\\\\"
    case '"' => "\\\""
    case '\n' => "\\n"
    case '\r' => "\\r"
    case '\t' => "\\t"
    case _ => [c]
  }

  /** Reference: every character escaped on its own, in order. */
  function EscapeEach(s: string): string {
    if s == [] then [] else EscapeChar(s[0]) + EscapeEach(s[1..])
  }

  /** The chain as single-character maps. */
  function Chain(s: string): string {
    ReplaceCharMap(ReplaceCharMap(ReplaceCharMap(ReplaceCharMap(ReplaceCharMap(
      s, '\\', "\\\\"), '"', "\\\""), '\n', "\\n"), '\r', "\\r"), '\t', "\\t")
  }

  lemma EscapeIsChain(s: string)
    ensures Escape(s) == Chain(s)
  {
    var a := ReplaceCharMap(s, '\\', "\\\\");
    ReplaceSingleChar(s, '\\', "\\\\");
    var b := ReplaceCharMap(a, '"', "\\\"");
    ReplaceSingleChar(a, '"', "\\\"");
    var c := ReplaceCharMap(b, '\n', "\\n");
    ReplaceSingleChar(b, '\n', "\\n");
    var d := ReplaceCharMap(c, '\r', "\\r");
    ReplaceSingleChar(c, '\r', "\\r");
    ReplaceSingleChar(d, '\t', "\\t");
  }

  lemma ChainAppend(x: string, y: string)
    ensures Chain(x + y) == Chain(x) + Chain(y)
  {
    ReplaceCharMapAppend(x, y, '\\', "\\\\");
    var a, b := ReplaceCharMap(x, '\\', "\\\\"), ReplaceCharMap(y, '\\', "\\\\");
    ReplaceCharMapAppend(a, b, '"', "\\\"");
    var c, d := ReplaceCharMap(a, '"', "\\\""), ReplaceCharMap(b, '"', "\\\"");
    ReplaceCharMapAppend(c, d, '\n', "\\n");
    var e, f := ReplaceCharMap(c, '\n', "\\n"), ReplaceCharMap(d, '\n', "\\n");
    ReplaceCharMapAppend(e, f, '\r', "\\r");
    var g, h := ReplaceCharMap(e, '\r', "\\r"), ReplaceCharMap(f, '\r', "\\r");
    ReplaceCharMapAppend(g, h, '\t', "\\t");
  }

  lemma MapOne(c: char, t: char, r: string)
    ensures ReplaceCharMap([c], t, r) == if c == t then r else [c]
  {
    assert [c][1..] == [];
  }

  lemma MapTwo(a: char, b: char, t: char, r: string)
    requires a != t && b != t
    ensures ReplaceCharMap([a, b], t, r) == [a, b]
  {
    assert [a, b][1..] == [b];
    MapOne(b, t, r);
  }

  /** A single character passes each later step unchanged unless that step targets it. */
  lemma ChainOne(c: char)
    ensures Chain([c]) == EscapeChar(c)
  {
    MapOne(c, '\\', "\\\\");
    if c == '\\' {
      MapTwo('\\', '\\', '"', "\\\"");
      MapTwo('\\', '\\', '\n', "\\n");
      MapTwo('\\', '\\', '\r', "\\r");
      MapTwo('\\', '\\', '\t', "\\t");
    } else {
      MapOne(c, '"', "\\\"");
      if c == '"' {
        MapTwo('\\', '"', '\n', "\\n");
        MapTwo('\\', '"', '\r', "\\r");
        MapTwo('\\', '"', '\t', "\\t");
      } else {
        MapOne(c, '\n', "\\n");
        if c == '\n' {
          MapTwo('\\', 'n', '\r', "\\r");
          MapTwo('\\', 'n', '\t', "\\t");
        } else {
          MapOne(c, '\r', "\\r");
          if c == '\r' {
            MapTwo('\\', 'r', '\t', "\\t");
          } else {
            MapOne(c, '\t', "\\t");
          }
        }
      }
    }
  }

  /** The chained replacements escape each character independently. */
  lemma {:induction false} EscapeIsPerCharacter(s: string)
    ensures Escape(s) == EscapeEach(s)
    decreases |s|
  {
    EscapeIsChain(s);
    if s != [] {
      assert s == [s[0]] + s[1..];
      ChainAppend([s[0]], s[1..]);
      ChainOne(s[0]);
      EscapeIsPerCharacter(s[1..]);
      EscapeIsChain(s[1..]);
    }
  }

  // ---------------------------------------------------------------------
  // Turtle string escapes
  // ---------------------------------------------------------------------

  /** The characters allowed after a backslash in an ECHAR escape. */
  predicate IsEscapable(c: char) {
    c == 't' || c == 'b' || c == 'n' || c == 'r' || c == 'f' || c == '"' || c == '\'' || c == '\\'
  }

  function Unescaped(c: char): char
    requires IsEscapable(c)
  {
    match c
    case 't' => '\t'
    case 'b' => '\U{0008}'
    case 'n' => '\n'
    case 'r' => '\r'
    case 'f' => '\U{000C}'
    case _ => c
  }

  function Prepend(c: char, r: Option<string>): Option<string> {
    match r
    case None => None
    case Some(s) => Some([c] + s)
  }

  /**
   * The body of a double-quoted Turtle string: any character but `"`,
   * backslash, LF and CR, or an ECHAR escape.  Numeric `\u` escapes are
   * not read here; `None` means the body is not accepted.
   */
  function Unescape(e: string): Option<string>
    decreases |e|
  {
    if e == [] then Some([])
    else if e[0] == '\\' then
      if |e| >= 2 && IsEscapable(e[1]) then Prepend(Unescaped(e[1]), Unescape(e[2..])) else None
    else if e[0] == '"' || e[0] == '\n' || e[0] == '\r' then None
    else Prepend(e[0], Unescape(e[1..]))
  }

  lemma UnescapeOne(c: char, rest: string)
    ensures Unescape(EscapeChar(c) + rest) == Prepend(c, Unescape(rest))
  {
    var e := EscapeChar(c) + rest;
    if c == '\\' || c == '"' || c == '\n' || c == '\r' || c == '\t' {
      assert e[2..] == rest;
    } else {
      assert e[1..] == rest;
    }
  }

  lemma {:induction false} UnescapeEach(s: string)
    ensures Unescape(EscapeEach(s)) == Some(s)
    decreases |s|
  {
    if s != [] {
      UnescapeOne(s[0], EscapeEach(s[1..]));
      UnescapeEach(s[1..]);
      assert s == [s[0]] + s[1..];
    }
  }

  /** Reading back what the writer puts between the quotes gives the original string. */
  lemma UnescapeEscape(s: string)
    ensures Unescape(Escape(s)) == Some(s)
  {
    EscapeIsPerCharacter(s);
    UnescapeEach(s);
  }

  lemma {:induction false} EachHasNoRawBreaks(s: string)
    ensures '\n' !in EscapeEach(s) && '\r' !in EscapeEach(s) && '\t' !in EscapeEach(s)
    decreases |s|
  {
    if s != [] {
      EachHasNoRawBreaks(s[1..]);
      var h := EscapeChar(s[0]);
      assert '\n' !in h && '\r' !in h && '\t' !in h;
    }
  }

  /** No raw line feed, carriage return or tab survives. */
  lemma EscapeHasNoRawBreaks(s: string)
    ensures '\n' !in Escape(s) && '\r' !in Escape(s) && '\t' !in Escape(s)
  {
    EscapeIsPerCharacter(s);
    EachHasNoRawBreaks(s);
  }

  lemma {:induction false} EachPlain(s: string)
    requires forall k :: 0 <= k < |s| ==> EscapeChar(s[k]) == [s[k]]
    ensures EscapeEach(s) == s
    decreases |s|
  {
    if s != [] {
      EachPlain(s[1..]);
    }
  }

  /** Text without any of the five characters is written as it is. */
  lemma EscapePlain(s: string)
    requires forall k :: 0 <= k < |s| ==> EscapeChar(s[k]) == [s[k]]
    ensures Escape(s) == s
  {
    EscapeIsPerCharacter(s);
    EachPlain(s);
  }

  /** Escaping is not idempotent: a backslash doubles on every pass. */
  lemma EscapeTwiceDiffers()
    ensures Escape(Escape("\\")) != Escape("\\")
  {
    EscapeIsPerCharacter("\\");
    EscapeIsPerCharacter("\\\\");
    assert EscapeEach("\\\\") == "\\\\" + EscapeEach("\\");
  }
}
