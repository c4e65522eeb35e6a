/**
 * The resource-name extractor the writers use for subjects and object
 * references: the `name` field with everything but letters, digits and
 * spaces removed, and the spaces then replaced when the field asks for it.
 */
module Names {
  import opened Wrappers
  import opened Text
  import opened Schema

  /**
   * `\p{L}` or `\p{N}`: spelled out for Latin-1, left to the platform's
   * Unicode tables above U+00FF.
   */
  predicate IsLetterOrDigit(c: char, p: Platform) {
    if c <= '\U{00FF}' then
      || 'A' <= c <= 'Z' || 'a' <= c <= 'z' || '0' <= c <= '9'
      || c == '\U{00AA}' || c == '\U{00B5}' || c == '\U{00BA}'
      || c == '\U{00B2}' || c == '\U{00B3}' || c == '\U{00B9}'
      || '\U{00BC}' <= c <= '\U{00BE}'
      || '\U{00C0}' <= c <= '\U{00D6}' || '\U{00D8}' <= c <= '\U{00F6}' || '\U{00F8}' <= c <= '\U{00FF}'
    else p.isWideLetterOrDigit(c)
  }

  /** Characters the filter `[^\p{L}\p{N} ]` keeps. */
  predicate IsNameChar(c: char, p: Platform) {
    c == ' ' || IsLetterOrDigit(c, p)
  }

  /** `replaceAll("[^\\p{L}\\p{N} ]", "")`. */
  function Filter(s: string, p: Platform): (r: string)
    ensures |r| <= |s|
    ensures forall k :: 0 <= k < |r| ==> IsNameChar(r[k], p)
  {
    if s == [] then []
    else (if IsNameChar(s[0], p) then [s[0]] else []) + Filter(s[1..], p)
  }

  /** The filter works character by character, so it distributes over concatenation. */
  lemma {:induction false} FilterAppend(a: string, b: string, p: Platform)
    ensures Filter(a + b, p) == Filter(a, p) + Filter(b, p)
    decreases |a|
  {
    if a != [] {
      assert (a + b)[0] == a[0] && (a + b)[1..] == a[1..] + b;
      FilterAppend(a[1..], b, p);
    } else {
      assert a + b == b;
    }
  }

  /** A character survives exactly when it is a letter, digit or space of the input. */
  lemma {:induction false} FilterMembership(s: string, p: Platform, c: char)
    ensures c in Filter(s, p) <==> c in s && IsNameChar(c, p)
    decreases |s|
  {
    if s != [] {
      FilterMembership(s[1..], p, c);
      assert s == [s[0]] + s[1..];
    }
  }

  /** Text made only of kept characters passes unchanged. */
  lemma {:induction false} FilterKeepsNameText(s: string, p: Platform)
    requires forall k :: 0 <= k < |s| ==> IsNameChar(s[k], p)
    ensures Filter(s, p) == s
    decreases |s|
  {
    if s != [] {
      FilterKeepsNameText(s[1..], p);
    }
  }

  /** Filtering twice is filtering once. */
  lemma FilterIdempotent(s: string, p: Platform)
    ensures Filter(Filter(s, p), p) == Filter(s, p)
  {
    FilterKeepsNameText(Filter(s, p), p);
  }

  /** `value.replace(" ", r)` when the field carries `@Replace(r)`. */
  function ReplaceSpaces(f: Field, value: string): string {
    if f.replace.Some? then Replace(value, " ", f.replace.value) else value
  }

  /**
   * `NAME_FIELD.getName`: the object's `name` field, filtered, with spaces
   * replaced.  A class without that field fails the lookup, and the
   * extractor rethrows that as a `RuntimeException`; a null name fails on
   * the filter call; a name that is not a string fails the cast (neither of
   * these two is caught).
   */
  function NameOf(o: Obj, p: Platform): (r: Result<string, Failure>)
    ensures FindField(o.cls.fields, "name").None? ==> r == Err(Runtime(NoSuchField("name")))
    ensures r.Ok? <==> exists k :: FindField(o.cls.fields, "name") == Some(k) && Slot(o, k).Some? && Slot(o, k).value.VString?
    ensures r.Ok? ==> var k := FindField(o.cls.fields, "name").value;
      r.value == ReplaceSpaces(o.cls.fields[k], Filter(Slot(o, k).value.s, p))
    ensures r.Err? && FindField(o.cls.fields, "name").Some? ==>
      r.error == (if Slot(o, FindField(o.cls.fields, "name").value).None? then NullPointer else ClassCast)
  {
    match FindField(o.cls.fields, "name")
    case None => Err(Runtime(NoSuchField("name")))
    case Some(k) =>
      match Slot(o, k)
      case None => Err(NullPointer)
      case Some(VString(s)) => Ok(ReplaceSpaces(o.cls.fields[k], Filter(s, p)))
      case Some(_) => Err(ClassCast)
  }

  /** Without `@Replace` the name is the filtered field: no longer, and stable under the filter. */
  lemma PlainName(o: Obj, p: Platform)
    requires NameOf(o, p).Ok?
    requires o.cls.fields[FindField(o.cls.fields, "name").value].replace.None?
    ensures var k := FindField(o.cls.fields, "name").value;
      |NameOf(o, p).value| <= |Slot(o, k).value.s| && Filter(NameOf(o, p).value, p) == NameOf(o, p).value
  {
    var k := FindField(o.cls.fields, "name").value;
    FilterIdempotent(Slot(o, k).value.s, p);
  }

  /** With `@Replace(r)` and no space in `r`, the name has no space left. */
  lemma ReplacedNameHasNoSpace(o: Obj, p: Platform)
    requires NameOf(o, p).Ok?
    requires var f := o.cls.fields[FindField(o.cls.fields, "name").value];
      f.replace.Some? && ' ' !in f.replace.value
    ensures ' ' !in NameOf(o, p).value
  {
    var k := FindField(o.cls.fields, "name").value;
    var f := o.cls.fields[k];
    ReplaceCharRemoves(Filter(Slot(o, k).value.s, p), ' ', f.replace.value);
  }

  /** With `@Replace(r)`, every space of the filtered name becomes `r`, other characters stay. */
  lemma ReplacedNameMapsSpaces(f: Field, filtered: string)
    requires f.replace.Some?
    ensures ReplaceSpaces(f, filtered) == ReplaceCharMap(filtered, ' ', f.replace.value)
  {
    ReplaceSingleChar(filtered, ' ', f.replace.value);
  }

  /**
   * The IMDB RDFS model: "Star Wars: IV" becomes `Star_Wars_IV`.  This takes
   * the model's `@Replace("_")` to be the annotation the extractor looks
   * for, as in the generated `ImdbFilm` class; `dto/ImdbFilmRdfsModel.java`
   * imports a `Replace` from another package, and with that one the
   * extractor would leave the spaces in place.
   */
  lemma ImdbNameExample(p: Platform)
    ensures NameOf(Obj(IMDB_FILM_RDFS_MODEL, [Some(VString("Star Wars: IV"))]), p) == Ok("Star_Wars_IV")
  {
    FilterExample(p);
    UnderscoreExample();
  }

  lemma UnderscoreExample()
    ensures Replace("Star Wars IV", " ", "_") == "Star_Wars_IV"
  {
    ReplaceSingleChar("Star Wars IV", ' ', "_");
    UnderscoreMap();
  }

  lemma UnderscoreMap()
    ensures ReplaceCharMap("Star Wars IV", ' ', "_") == "Star_Wars_IV"
  {
    ThreeWords("Star", "Wars", "IV", "_");
    assert "Star" + [' '] + "Wars" + [' '] + "IV" == "Star Wars IV";
    assert "Star" + "_" + "Wars" + "_" + "IV" == "Star_Wars_IV";
  }

  /** Three words without spaces, separated by single spaces. */
  lemma ThreeWords(a: string, b: string, d: string, r: string)
    requires ' ' !in a && ' ' !in b && ' ' !in d
    ensures ReplaceCharMap(a + [' '] + b + [' '] + d, ' ', r) == a + r + b + r + d
  {
    ReplaceAfterWord(b, d, r);
    ReplaceCharMapAbsent(d, ' ', r);
    ReplaceAfterWord(a, b + [' '] + d, r);
    assert a + [' '] + b + [' '] + d == a + [' '] + (b + [' '] + d);
  }

  lemma FilterExample(p: Platform)
    ensures Filter("Star Wars: IV", p) == "Star Wars IV"
  {
    var s := "Star Wars: IV";
    assert s == "Star Wars" + (":" + " IV");
    FilterAppend(":", " IV", p);
    FilterKeepsNameText(" IV", p);
    FilterAppend("Star Wars", ":" + " IV", p);
    FilterKeepsNameText("Star Wars", p);
  }

  /** A word without spaces, a space, then the rest: the space becomes the replacement. */
  lemma ReplaceAfterWord(w: string, rest: string, r: string)
    requires ' ' !in w
    ensures ReplaceCharMap(w + [' '] + rest, ' ', r) == w + r + ReplaceCharMap(rest, ' ', r)
  {
    ReplaceCharMapAbsent(w, ' ', r);
    ReplaceCharMapAppend(w, [' '] + rest, ' ', r);
    assert w + [' '] + rest == w + ([' '] + rest);
    assert ([' '] + rest)[1..] == rest;
  }
}
