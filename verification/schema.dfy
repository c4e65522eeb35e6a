/**
 * The reflective view of a record class, made explicit: a class is its
 * simple name and its ordered field descriptors; an object is one optional
 * value per declared field.  The annotations the readers and writers
 * consult (`@Ignore`, `@Remove`, `@Replace`, `@Range`) are optional
 * descriptor attributes.
 */
module Schema {
  import opened Wrappers

  /** Declared field types the readers and writers distinguish. */
  datatype Kind =
    | KString | KInteger | KLong | KDouble | KBoolean | KDate
    | KPrimInt | KPrimLong | KPrimDouble | KPrimBoolean
      /** `List<T>`; `item` is `None` for a raw `List`. */
    | KList(item: Option<Kind>)
      /** Any other class, by simple name. */
    | KClass(simpleName: string)

  datatype Field = Field(
    name: string,
    kind: Kind,
    ignore: Option<string>,
    remove: Option<string>,
    replace: Option<string>,
    range: Option<string>)

  datatype ClassDesc = ClassDesc(simpleName: string, fields: seq<Field>)

  /**
   * A runtime value.  Doubles and dates carry the text `String.valueOf`
   * gives for them; their parsing is a parameter of the reader.
   */
  datatype Value =
    | VString(s: string)
    | VInteger(i: int)
    | VLong(l: int)
    | VDouble(doubleText: string)
    | VBoolean(b: bool)
    | VDate(dateText: string)
    | VList(items: seq<Value>)
    | VObject(obj: Obj)

  /** An instance: `slots[k]` is the value of `cls.fields[k]`, `None` for null. */
  datatype Obj = Obj(cls: ClassDesc, slots: seq<Option<Value>>)

  /** The exceptions the modelled code can raise. */
  datatype Failure =
    | NullPointer
    | IndexOutOfBounds(index: int)
    | NoSuchField(fieldName: string)
    | NumberFormat(input: string)
    | DateTimeParse(input: string)
    | IllegalState
    | IllegalArgument
    | ClassCast
    | Runtime(cause: Failure)   // a `RuntimeException` wrapping a checked exception

  /**
   * The library behaviour left abstract: `Double.parseDouble` and
   * `LocalDate.parse` (each giving the text of the parsed value), and which
   * characters above U+00FF are Unicode letters or digits.
   */
  datatype Platform = Platform(
    parseDouble: string -> Option<string>,
    parseDate: string -> Option<string>,
    isWideLetterOrDigit: char -> bool)

  const INT_MIN: int := -0x8000_0000
  const INT_MAX: int := 0x7fff_ffff
  const LONG_MIN: int := -0x8000_0000_0000_0000
  const LONG_MAX: int := 0x7fff_ffff_ffff_ffff

  /** The value of a slot, null when the object has no such slot. */
  function Slot(o: Obj, k: nat): Option<Value> {
    if k < |o.slots| then o.slots[k] else None
  }

  /** `Class.getDeclaredField(name)`: the position of the field so named. */
  function FindField(fields: seq<Field>, name: string): (r: Option<nat>)
    ensures r.Some? ==> r.value < |fields| && fields[r.value].name == name
    ensures r.Some? ==> forall k :: 0 <= k < r.value ==> fields[k].name != name
    ensures r.None? <==> forall k :: 0 <= k < |fields| ==> fields[k].name != name
  {
    if fields == [] then None
    else if fields[0].name == name then Some(0)
    else
      assert forall k :: 1 <= k < |fields| ==> fields[k] == fields[1..][k - 1];
      match FindField(fields[1..], name)
      case None => None
      case Some(k) => Some(k + 1)
  }

  /** `getSimpleName()` of a declared field type. */
  function KindName(k: Kind): string {
    match k
    case KString => "String"
    case KInteger => "Integer"
    case KLong => "Long"
    case KDouble => "Double"
    case KBoolean => "Boolean"
    case KDate => "LocalDate"
    case KPrimInt => "int"
    case KPrimLong => "long"
    case KPrimDouble => "double"
    case KPrimBoolean => "boolean"
    case KList(_) => "List"
    case KClass(n) => n
  }

  /** The writers' literal types: String, Integer, Double and Long, boxed or primitive. */
  predicate IsLiteralKind(k: Kind) {
    k in {KString, KInteger, KPrimInt, KDouble, KPrimDouble, KLong, KPrimLong}
  }

  /** Whether a value's runtime class is one of the literal types. */
  predicate IsLiteralValue(v: Value) {
    v.VString? || v.VInteger? || v.VLong? || v.VDouble?
  }

  /** `ClassUtils.getItemType`: the class argument of a parameterised `List`. */
  function ItemType(f: Field): (r: Result<Kind, Failure>)
    requires f.kind.KList?
    ensures r.Ok? <==> f.kind.item.Some? && !f.kind.item.value.KList?
    ensures r.Ok? ==> r.value == f.kind.item.value
    ensures f.kind.item.None? ==> r == Err(IllegalArgument)
  {
    match f.kind.item
    case None => Err(IllegalArgument)
    // A nested parameterised type is not a `Class`: the cast fails.
    case Some(KList(_)) => Err(ClassCast)
    case Some(k) => Ok(k)
  }

  // ---------------------------------------------------------------------
  // Fixtures: the repository's record classes
  // ---------------------------------------------------------------------

  function Plain(name: string, kind: Kind): Field {
    Field(name, kind, None, None, None, None)
  }

  function Ignored(name: string, kind: Kind, sentinel: string): Field {
    Field(name, kind, Some(sentinel), None, None, None)
  }

  const STRING_LIST: Kind := KList(Some(KString))

  /** `model/ImdbFilm` and `dto/ImdbFilmCsvModel`, which declare the same fields. */
  /** The vote count: commas removed, the sentinel `No Votes` ignored. */
  const VOTES: Field := Field("votes", KInteger, Some("No Votes"), Some(","), None, None)

  const IMDB_FILM_CSV: seq<Field> := [
    Ignored("name", KString, "No Rate"),
    Ignored("date", KInteger, "No Rate"),
    Ignored("rate", KDouble, "No Rate"),
    VOTES,
    Ignored("genre", STRING_LIST, "No Rate"),
    Ignored("duration", KInteger, "None"),
    Ignored("type", KString, "No Rate"),
    Ignored("certificate", KString, "No Rate"),
    Ignored("episodes", KString, "No Rate"),
    Ignored("nudity", KString, "No Rate"),
    Ignored("violence", KString, "No Rate"),
    Ignored("profanity", KString, "No Rate"),
    Ignored("alcohol", KString, "No Rate"),
    Ignored("frightening", KString, "No Rate")
  ]

  const IMDB_FILM: ClassDesc := ClassDesc("ImdbFilm", IMDB_FILM_CSV)
  const IMDB_FILM_CSV_MODEL: ClassDesc := ClassDesc("ImdbFilmCsvModel", IMDB_FILM_CSV)

  const IMDB_FILM_RDFS_MODEL: ClassDesc := ClassDesc("ImdbFilmRdfsModel", [
    Field("name", KString, None, None, Some("_"), None),
    Plain("date", KInteger),
    Plain("rate", KDouble),
    Plain("votes", KInteger),
    Plain("genre", STRING_LIST),
    Plain("duration", KInteger),
    Plain("type", KString),
    Plain("certificate", KString),
    Plain("episodes", KString),
    Plain("nudity", KString),
    Plain("violence", KString),
    Plain("profanity", KString),
    Plain("alcohol", KString),
    Plain("frightening", KString)
  ])

  /** The generated `ImdbFilm` with both reader and writer annotations. */
  const IMDB_FILM_CONVERTED: ClassDesc := ClassDesc("ImdbFilm", [
    Field("name", KString, Some("No Rate"), None, Some("_"), None),
    Ignored("date", KInteger, "No Rate"),
    Ignored("rate", KDouble, "No Rate"),
    VOTES,
    Ignored("genre", STRING_LIST, "No Rate"),
    Ignored("duration", KInteger, "None"),
    Ignored("type", KString, "No Rate"),
    Ignored("certificate", KString, "No Rate"),
    Ignored("episodes", KInteger, "No Rate,-"),
    Ignored("nudity", KString, "No Rate"),
    Ignored("violence", KString, "No Rate"),
    Ignored("profanity", KString, "No Rate"),
    Ignored("alcohol", KString, "No Rate"),
    Ignored("frightening", KString, "No Rate")
  ])

  /** `AmazonFilm`; its `@Column` names are not consulted by the readers. */
  const AMAZON_FILM: ClassDesc := ClassDesc("AmazonFilm", [
    Plain("id", KInteger),
    Plain("title", KString),
    Plain("rating", KDouble),
    Plain("numberOfRating", KInteger),
    Plain("format", KString),
    Plain("releaseYear", KString),
    Plain("mpaaRating", KString),
    Plain("directedBy", STRING_LIST),
    Plain("starring", STRING_LIST),
    Plain("price", KDouble)
  ])

  const NETFLIX_FILM_SOURCE: ClassDesc := ClassDesc("NetflixFilm", [
    Plain("title", KString),
    Plain("genre", KString),
    Plain("premiere", KString),
    Plain("duration", KInteger),
    Plain("rating", KDouble),
    Plain("language", KString)
  ])

  const NETFLIX_FILM_CONVERTED: ClassDesc := ClassDesc("NetflixFilm", [
    Plain("title", KString),
    Plain("genre", KString),
    Plain("premiere", KString),
    Plain("runtime", KString),
    Plain("imdbScore", KString),
    Plain("language", KString)
  ])
}
