/**
 * The Turtle writer: three prefix lines, the class, one property block per
 * declared field, then the records, numbered from 1, with their field
 * values as statements.
 */
module TtlWriter {
  import opened Wrappers
  import opened Text
  import opened Schema
  import opened WriterCore
  import opened TurtleEscape

  const RDF_PREFIX_LINE: string := "@prefix rdf: <http://www.w3.org/1999/02/22-rdf-syntax-ns> .\n"
  const RDFS_PREFIX_LINE: string := "@prefix rdfs: <http://www.w3.org/2000/01/rdf-schema> .\n"

  /**
   * `writeRdfsProperty`'s object: a quoted, escaped string; the text of
   * another literal-typed value; otherwise `:` and the extracted name.
   */
  function Serialize(v: Value, p: Platform): (r: Result<string, Failure>)
    ensures !IsLiteralValue(v) ==> (r.Ok? <==> NameOfValue(v, p).Ok?)
    ensures !IsLiteralValue(v) && r.Ok? ==> r.value == ":" + NameOfValue(v, p).value
    ensures v.VString? ==> r.Ok? && IsQuotedLiteral(r.value, v.s)
    ensures IsLiteralValue(v) && !v.VString? ==> r == Ok(ValueText(v))
  {
    if !IsLiteralValue(v) then
      var name :- NameOfValue(v, p);
      Ok(":" + name)
    else if v.VString? then
      UnescapeEscape(v.s);
      var q := "\"" + Escape(v.s) + "\"";
      assert q[1..|q| - 1] == Escape(v.s);
      Ok(q)
    else Ok(ValueText(v))
  }

  /** `q` is a double-quoted Turtle string whose body reads back as `s`. */
  predicate IsQuotedLiteral(q: string, s: string) {
    |q| >= 2 && q[0] == '"' && q[|q| - 1] == '"' && Unescape(q[1..|q| - 1]) == Some(s)
  }

  function Serializer(p: Platform): Value -> Result<string, Failure> {
    v => Serialize(v, p)
  }

  /** The three prefix lines (rdf and rdfs without a trailing `#`) and the class declaration. */
  function Preamble(cls: ClassDesc, prefix: string, iri: string): seq<string> {
    [ "@prefix " + prefix + ": <" + iri + "> .\n", RDF_PREFIX_LINE, RDFS_PREFIX_LINE,
      prefix + ":" + cls.simpleName + " a rdfs:Class .\n" ]
  }

  /** The schema part of `writeRdfsModel`: prefixes, the class, the property blocks. */
  function Header(cls: ClassDesc, prefix: string, iri: string): (r: Result<seq<string>, Failure>)
    ensures r.Ok? <==> PropertyBlocks(Turtle, cls, prefix, 0).Ok?
    ensures r.Ok? ==> |r.value| == 4 + 3 * |cls.fields|
    ensures r.Ok? ==> r.value[..4] == Preamble(cls, prefix, iri)
    ensures r.Ok? ==> r.value[4..] == PropertyBlocks(Turtle, cls, prefix, 0).value
  {
    var blocks :- PropertyBlocks(Turtle, cls, prefix, 0);
    var top := Preamble(cls, prefix, iri);
    assert (top + blocks)[..4] == top && (top + blocks)[4..] == blocks;
    Ok(top + blocks)
  }

  /** The subject of the `i`-th record. */
  function Subject(prefix: string, i: nat): string {
    prefix + ":" + NatToString(i)
  }

  function TypeLine(prefix: string, className: string, i: nat): string {
    Subject(prefix, i) + " a " + prefix + ":" + className + " .\n"
  }

  /** A record can be written: the field loop can read it and every field serialises. */
  predicate RecordWrites(cls: ClassDesc, o: Obj, prefix: string, p: Platform, i: nat) {
    FieldsAccessible(cls, o) && RecordStatements(cls, o, Subject(prefix, i), prefix, Serializer(p), 0).Ok?
  }

  /** The block of a record that can be written as the `i`-th: its type line, then its statements. */
  function RecordBlock(cls: ClassDesc, o: Obj, prefix: string, p: Platform, i: nat): seq<string>
    requires RecordWrites(cls, o, prefix, p, i)
  {
    [TypeLine(prefix, cls.simpleName, i)] + RecordStatements(cls, o, Subject(prefix, i), prefix, Serializer(p), 0).value
  }

  /** Records numbered from `i`, one block each: the type line, then the statements. */
  function Records(cls: ClassDesc, objects: seq<Obj>, prefix: string, p: Platform, i: nat): (r: Result<seq<seq<string>>, Failure>)
    ensures r.Ok? <==> forall j :: 0 <= j < |objects| ==> RecordWrites(cls, objects[j], prefix, p, i + j)
    ensures r.Ok? ==> |r.value| == |objects|
    ensures r.Ok? ==> forall j :: 0 <= j < |objects| ==> r.value[j] == RecordBlock(cls, objects[j], prefix, p, i + j)
  {
    if objects == [] then Ok([])
    else
      assert forall j :: 1 <= j < |objects| ==> objects[j] == objects[1..][j - 1] && i + j == (i + 1) + (j - 1);
      var o := objects[0];
      if !FieldsAccessible(cls, o) then Err(IllegalArgument)
      else
        var statements :- RecordStatements(cls, o, Subject(prefix, i), prefix, Serializer(p), 0);
        var rest :- Records(cls, objects[1..], prefix, p, i + 1);
        BlocksStep(cls, objects, prefix, p, i, rest);
        Ok([RecordBlock(cls, o, prefix, p, i)] + rest)
  }

  /** The first record's block in front of the blocks of the rest, numbered one further. */
  lemma BlocksStep(cls: ClassDesc, objects: seq<Obj>, prefix: string, p: Platform, i: nat, rest: seq<seq<string>>)
    requires objects != [] && RecordWrites(cls, objects[0], prefix, p, i) && |rest| == |objects| - 1
    requires forall j :: 0 <= j < |rest| ==> RecordWrites(cls, objects[1..][j], prefix, p, i + 1 + j)
    requires forall j :: 0 <= j < |rest| ==> rest[j] == RecordBlock(cls, objects[1..][j], prefix, p, i + 1 + j)
    ensures forall j :: 0 <= j < |objects| ==>
      RecordWrites(cls, objects[j], prefix, p, i + j) &&
      ([RecordBlock(cls, objects[0], prefix, p, i)] + rest)[j] == RecordBlock(cls, objects[j], prefix, p, i + j)
  {
    forall j | 0 <= j < |objects|
      ensures RecordWrites(cls, objects[j], prefix, p, i + j)
      ensures ([RecordBlock(cls, objects[0], prefix, p, i)] + rest)[j] == RecordBlock(cls, objects[j], prefix, p, i + j)
    {
      if j > 0 {
        assert objects[j] == objects[1..][j - 1] && i + j == i + 1 + (j - 1);
      }
    }
  }

  /**
   * An object of another class fails at the first declared field; a class
   * without declared fields never reads the object, so it writes a bare
   * type line for it.
   */
  lemma ForeignObject(cls: ClassDesc, objects: seq<Obj>, prefix: string, p: Platform, i: nat)
    requires objects != [] && objects[0].cls != cls
    ensures |cls.fields| > 0 ==> Records(cls, objects, prefix, p, i) == Err(IllegalArgument)
    ensures |cls.fields| == 0 && Records(cls, objects, prefix, p, i).Ok? ==>
      Records(cls, objects, prefix, p, i).value[0] == [TypeLine(prefix, cls.simpleName, i)]
  {
  }

  /** With no declared fields every list of objects writes, one type line each, whatever their class. */
  lemma NoFieldsAlwaysWrite(cls: ClassDesc, objects: seq<Obj>, prefix: string, p: Platform, i: nat)
    requires |cls.fields| == 0
    ensures Records(cls, objects, prefix, p, i).Ok?
    ensures forall j :: 0 <= j < |objects| ==> Records(cls, objects, prefix, p, i).value[j] == [TypeLine(prefix, cls.simpleName, i + j)]
  {
    forall j | 0 <= j < |objects|
      ensures RecordWrites(cls, objects[j], prefix, p, i + j)
      ensures RecordBlock(cls, objects[j], prefix, p, i + j) == [TypeLine(prefix, cls.simpleName, i + j)]
    {
      assert RecordStatements(cls, objects[j], Subject(prefix, i + j), prefix, Serializer(p), 0) == Ok([]);
    }
  }

  /** `writeRdfsModel(clazz, objects, prefix, prefixFullValue, nameExtractor, writer)`. */
  function Write(cls: ClassDesc, objects: seq<Obj>, prefix: string, iri: string, p: Platform): (r: Result<seq<string>, Failure>)
    ensures r.Ok? <==> Header(cls, prefix, iri).Ok? && Records(cls, objects, prefix, p, 1).Ok?
    ensures r.Ok? ==> r.value == Header(cls, prefix, iri).value + Flatten(Records(cls, objects, prefix, p, 1).value)
    ensures r.Ok? ==> |r.value| == 4 + 3 * |cls.fields| + RecordsSize(cls, objects)
  {
    var header :- Header(cls, prefix, iri);
    var blocks :- Records(cls, objects, prefix, p, 1);
    FlattenLength(blocks);
    BlocksSize(cls, objects, blocks);
    Ok(header + Flatten(blocks))
  }

  /** A non-null Boolean, date or nested-list field has no name to extract, so nothing is written. */
  lemma NonLiteralScalarFails(cls: ClassDesc, objects: seq<Obj>, prefix: string, iri: string, p: Platform, j: nat, k: nat)
    requires j < |objects| && k < |cls.fields| && !cls.fields[k].kind.KList?
    requires Slot(objects[j], k).Some? && !IsLiteralValue(Slot(objects[j], k).value) && !Slot(objects[j], k).value.VObject?
    ensures Write(cls, objects, prefix, iri, p).Err?
  {
    FailingFieldFailsRecord(cls, objects[j], Subject(prefix, 1 + j), prefix, Serializer(p), k);
    assert !RecordWrites(cls, objects[j], prefix, p, 1 + j);
  }
}
