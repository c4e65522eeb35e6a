/**
 * The older RDFS writer: no prefix lines, `rdfs:Property` blocks with an
 * unprefixed domain, records named by the name extractor, and values
 * written bare.
 */
module RdfsWriter {
  import opened Wrappers
  import opened Text
  import opened Schema
  import opened WriterCore
  import Names
  import TtlWriter

  /**
   * `writeRdfsProperty`'s object: the text of a literal-typed value, with
   * no quotes and no escaping, or the bare extracted name.
   */
  function Serialize(v: Value, p: Platform): (r: Result<string, Failure>)
    ensures IsLiteralValue(v) ==> r == Ok(ValueText(v))
    ensures !IsLiteralValue(v) ==> r == NameOfValue(v, p)
  {
    if IsLiteralValue(v) then Ok(ValueText(v)) else NameOfValue(v, p)
  }

  function Serializer(p: Platform): Value -> Result<string, Failure> {
    v => Serialize(v, p)
  }

  /** The schema part: the class declaration first, then the property blocks. */
  function Header(cls: ClassDesc, prefix: string): (r: Result<seq<string>, Failure>)
    ensures r.Ok? <==> PropertyBlocks(PlainRdfs, cls, prefix, 0).Ok?
    ensures r.Ok? ==> |r.value| == 1 + 3 * |cls.fields|
    ensures r.Ok? ==> r.value[0] == prefix + ":" + cls.simpleName + " a rdfs:Class .\n"
    ensures r.Ok? ==> r.value[1..] == PropertyBlocks(PlainRdfs, cls, prefix, 0).value
  {
    var blocks :- PropertyBlocks(PlainRdfs, cls, prefix, 0);
    var r := [prefix + ":" + cls.simpleName + " a rdfs:Class .\n"] + blocks;
    assert r[1..] == blocks;
    Ok(r)
  }

  /** A record can be written: it has a name, the field loop can read it, and every field serialises. */
  predicate RecordWrites(cls: ClassDesc, o: Obj, prefix: string, p: Platform) {
    && Names.NameOf(o, p).Ok?
    && FieldsAccessible(cls, o)
    && RecordStatements(cls, o, ":" + Names.NameOf(o, p).value, prefix, Serializer(p), 0).Ok?
  }

  /** One block per record: `:name a prefix:Class .`, then its statements with subject `:name`. */
  function Records(cls: ClassDesc, objects: seq<Obj>, prefix: string, p: Platform): (r: Result<seq<seq<string>>, Failure>)
    ensures r.Ok? <==> forall j :: 0 <= j < |objects| ==> RecordWrites(cls, objects[j], prefix, p)
    ensures r.Ok? ==> |r.value| == |objects|
    ensures r.Ok? ==> forall j :: 0 <= j < |objects| ==>
      var subject := ":" + Names.NameOf(objects[j], p).value;
      r.value[j] == [subject + " a " + prefix + ":" + cls.simpleName + " .\n"]
                    + RecordStatements(cls, objects[j], subject, prefix, Serializer(p), 0).value
  {
    if objects == [] then Ok([])
    else
      assert forall j :: 1 <= j < |objects| ==> objects[j] == objects[1..][j - 1];
      var o := objects[0];
      // The name is extracted from the object's own class before the field loop.
      var name :- Names.NameOf(o, p);
      if !FieldsAccessible(cls, o) then Err(IllegalArgument)
      else
        var subject := ":" + name;
        var statements :- RecordStatements(cls, o, subject, prefix, Serializer(p), 0);
        var rest :- Records(cls, objects[1..], prefix, p);
        Ok([[subject + " a " + prefix + ":" + cls.simpleName + " .\n"] + statements] + rest)
  }

  /**
   * An object of another class first has its name extracted from its own
   * class, so a nameless one fails there; a named one fails at the first
   * declared field, and with no declared field it is written as its type line.
   */
  lemma ForeignObject(cls: ClassDesc, objects: seq<Obj>, prefix: string, p: Platform)
    requires objects != [] && objects[0].cls != cls
    ensures Names.NameOf(objects[0], p).Err? ==> Records(cls, objects, prefix, p) == Err(Names.NameOf(objects[0], p).error)
    ensures Names.NameOf(objects[0], p).Ok? && |cls.fields| > 0 ==> Records(cls, objects, prefix, p) == Err(IllegalArgument)
    ensures Names.NameOf(objects[0], p).Ok? && |cls.fields| == 0 && Records(cls, objects, prefix, p).Ok? ==>
      Records(cls, objects, prefix, p).value[0] == [":" + Names.NameOf(objects[0], p).value + " a " + prefix + ":" + cls.simpleName + " .\n"]
  {
  }

  /** `writeRdfsModel(clazz, objects, prefix, nameExtractor, writer)`. */
  function Write(cls: ClassDesc, objects: seq<Obj>, prefix: string, p: Platform): (r: Result<seq<string>, Failure>)
    ensures r.Ok? <==> Header(cls, prefix).Ok? && Records(cls, objects, prefix, p).Ok?
    ensures r.Ok? ==> r.value == Header(cls, prefix).value + Flatten(Records(cls, objects, prefix, p).value)
    ensures r.Ok? ==> |r.value| == 1 + 3 * |cls.fields| + RecordsSize(cls, objects)
  {
    var header :- Header(cls, prefix);
    var blocks :- Records(cls, objects, prefix, p);
    FlattenLength(blocks);
    BlocksSize(cls, objects, blocks);
    Ok(header + Flatten(blocks))
  }

  // ---------------------------------------------------------------------
  // Against the Turtle writer
  // ---------------------------------------------------------------------

  /**
   * The two writers agree on numbers; a non-literal value gains a `:` in
   * the Turtle writer; a string is quoted and escaped there, bare here.
   */
  lemma SerializersCompared(v: Value, p: Platform)
    ensures v.VInteger? || v.VLong? || v.VDouble? ==> TtlWriter.Serialize(v, p) == Serialize(v, p)
    ensures !IsLiteralValue(v) && Serialize(v, p).Ok? ==> TtlWriter.Serialize(v, p) == Ok(":" + Serialize(v, p).value)
    ensures !IsLiteralValue(v) ==> (TtlWriter.Serialize(v, p).Ok? <==> Serialize(v, p).Ok?)
    ensures v.VString? ==> Serialize(v, p) == Ok(v.s) && TtlWriter.IsQuotedLiteral(TtlWriter.Serialize(v, p).value, v.s)
  {
  }

  /** Whether a record's field serialise does not depend on the writer. */
  lemma {:induction false} SameFieldsWrite(cls: ClassDesc, o: Obj, s1: string, s2: string, prefix: string, p: Platform, k: nat)
    requires k <= |cls.fields|
    ensures FieldsWrite(cls, o, s1, prefix, Serializer(p), k) <==> FieldsWrite(cls, o, s2, prefix, TtlWriter.Serializer(p), k)
  {
    forall j | k <= j < |cls.fields|
      ensures FieldStatements(cls.fields[j], Slot(o, j), s1, prefix, Serializer(p)).Ok?
          <==> FieldStatements(cls.fields[j], Slot(o, j), s2, prefix, TtlWriter.Serializer(p)).Ok?
    {
      var slot := Slot(o, j);
      if slot.Some? {
        if cls.fields[j].kind.KList? && slot.value.VList? {
          var items := slot.value.items;
          forall i | 0 <= i < |items|
            ensures Serializer(p)(items[i]).Ok? <==> TtlWriter.Serializer(p)(items[i]).Ok?
          {
            SerializersCompared(items[i], p);
          }
        } else if !cls.fields[j].kind.KList? {
          SerializersCompared(slot.value, p);
        }
      }
    }
  }

  /**
   * When both writers succeed on the same records, the Turtle output has
   * exactly three more writes: its prefix lines.
   */
  lemma OutputsDifferByPrefixLines(cls: ClassDesc, objects: seq<Obj>, prefix: string, iri: string, p: Platform)
    requires Write(cls, objects, prefix, p).Ok? && TtlWriter.Write(cls, objects, prefix, iri, p).Ok?
    ensures |TtlWriter.Write(cls, objects, prefix, iri, p).value| == |Write(cls, objects, prefix, p).value| + 3
  {
  }
}
