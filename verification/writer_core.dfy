/**
 * What the two RDFS writers share: the range rule, the literal test, the
 * statement line, and the loop over one record's fields.  A writer's
 * output is the sequence of strings it hands to `Writer.write`, in order.
 */
module WriterCore {
  import opened Wrappers
  import opened Text
  import opened Schema
  import Names

  /** The element type for a list field, the declared type otherwise. */
  function ElementKind(f: Field): (r: Result<Kind, Failure>)
    ensures !f.kind.KList? ==> r == Ok(f.kind)
    ensures f.kind.KList? ==> r == ItemType(f)
  {
    if f.kind.KList? then ItemType(f) else Ok(f.kind)
  }

  /**
   * `calculateRange`: the element type is resolved first (so a raw or
   * nested list fails even under `@Range`); then `@Range` wins; then a
   * literal element type gives `rdfs:Literal`; otherwise the prefix and
   * the declared type's simple name, which is `List` for any list.
   */
  function CalculateRange(f: Field, prefix: string): (r: Result<string, Failure>)
    ensures r.Err? <==> f.kind.KList? && ItemType(f).Err?
    ensures r.Err? ==> r.error == ItemType(f).error
    ensures r.Ok? && f.range.Some? ==> r.value == f.range.value
    ensures r.Ok? && f.range.None? && IsLiteralKind(ElementKind(f).value) ==> r.value == "rdfs:Literal"
    ensures r.Ok? && f.range.None? && !IsLiteralKind(ElementKind(f).value) ==> r.value == prefix + ":" + KindName(f.kind)
  {
    var element :- ElementKind(f);
    if f.range.Some? then Ok(f.range.value)
    else if IsLiteralKind(element) then Ok("rdfs:Literal")
    else Ok(prefix + ":" + KindName(f.kind))
  }

  /** Lists of literals are literal-valued; a list of anything else ranges over `List`. */
  lemma ListRanges(f: Field, prefix: string)
    requires f.kind.KList? && f.kind.item.Some? && !f.kind.item.value.KList? && f.range.None?
    ensures IsLiteralKind(f.kind.item.value) ==> CalculateRange(f, prefix) == Ok("rdfs:Literal")
    ensures !IsLiteralKind(f.kind.item.value) ==> CalculateRange(f, prefix) == Ok(prefix + ":List")
  {
    assert prefix + ":" + "List" == prefix + ":List";
  }

  /** Boolean and date fields are not literal: their range names the type under the prefix. */
  lemma NonLiteralScalarRanges(f: Field, prefix: string)
    requires f.range.None? && (f.kind == KBoolean || f.kind == KDate)
    ensures f.kind == KBoolean ==> CalculateRange(f, prefix) == Ok(prefix + ":Boolean")
    ensures f.kind == KDate ==> CalculateRange(f, prefix) == Ok(prefix + ":LocalDate")
  {
    assert !IsLiteralKind(f.kind);
    assert prefix + ":" + "Boolean" == prefix + ":Boolean";
    assert prefix + ":" + "LocalDate" == prefix + ":LocalDate";
  }

  /** A raw `List` field fails the range rule even when it names its range. */
  lemma RawListFailsDespiteRange(f: Field, prefix: string)
    requires f.kind == KList(None)
    ensures CalculateRange(f, prefix) == Err(IllegalArgument)
  {
  }

  /** Every field of the IMDB RDFS model ranges over literals. */
  lemma ImdbRdfsModelRanges(prefix: string)
    ensures forall k :: 0 <= k < |IMDB_FILM_RDFS_MODEL.fields| ==>
      CalculateRange(IMDB_FILM_RDFS_MODEL.fields[k], prefix) == Ok("rdfs:Literal")
  {
  }

  /**
   * The two writers' property blocks differ only in wording: the Turtle
   * writer declares an `rdf:Property` with a prefixed domain, the older
   * writer an `rdfs:Property` with the bare class name as domain.
   */
  datatype Dialect = Turtle | PlainRdfs

  /** The three lines of a property block, with the range already computed. */
  function PropertyBlock(d: Dialect, prefix: string, className: string, fieldName: string, range: string): seq<string> {
    match d
    case Turtle =>
      [ prefix + ":" + fieldName + " a rdf:Property ;\n\t",
        "rdfs:domain " + prefix + ":" + className + " ;\n\t",
        "rdfs:range " + range + " .\n" ]
    case PlainRdfs =>
      [ prefix + ":" + fieldName + " a rdfs:Property ;\n\t",
        "rdfs:domain " + className + " ;\n\t",
        "rdfs:range " + range + " .\n" ]
  }

  /** The block of field `j`, when its range can be computed. */
  function FieldBlock(d: Dialect, cls: ClassDesc, prefix: string, j: nat): seq<string>
    requires j < |cls.fields|
  {
    match CalculateRange(cls.fields[j], prefix)
    case Ok(range) => PropertyBlock(d, prefix, cls.simpleName, cls.fields[j].name, range)
    case Err(_) => []
  }

  /** The property blocks of fields `k..`, in declaration order. */
  function PropertyBlocks(d: Dialect, cls: ClassDesc, prefix: string, k: nat): (r: Result<seq<string>, Failure>)
    requires k <= |cls.fields|
    ensures r.Ok? <==> forall j :: k <= j < |cls.fields| ==> CalculateRange(cls.fields[j], prefix).Ok?
    ensures r.Ok? ==> |r.value| == 3 * (|cls.fields| - k)
    ensures r.Ok? ==> forall j :: k <= j < |cls.fields| ==> r.value[3 * (j - k)..3 * (j - k) + 3] == FieldBlock(d, cls, prefix, j)
    decreases |cls.fields| - k
  {
    if k == |cls.fields| then Ok([])
    else
      var range :- CalculateRange(cls.fields[k], prefix);
      var rest :- PropertyBlocks(d, cls, prefix, k + 1);
      var r := PropertyBlock(d, prefix, cls.simpleName, cls.fields[k].name, range) + rest;
      assert forall j :: k + 1 <= j < |cls.fields| ==>
        FieldBlock(d, cls, prefix, j) == rest[3 * (j - k - 1)..3 * (j - k - 1) + 3] == r[3 * (j - k)..3 * (j - k) + 3];
      Ok(r)
  }

  /** `String.valueOf` of a literal-typed value. */
  function ValueText(v: Value): string
    requires IsLiteralValue(v)
  {
    match v
    case VString(s) => s
    case VInteger(i) => IntToString(i)
    case VLong(l) => IntToString(l)
    case VDouble(t) => t
  }

  /**
   * The name extractor applied to an arbitrary value: only a record has a
   * `name` field to look up; a Boolean, a date or a list has none, so the
   * extractor's lookup fails and is rethrown as a `RuntimeException`.
   */
  function NameOfValue(v: Value, p: Platform): (r: Result<string, Failure>)
    ensures !v.VObject? ==> r == Err(Runtime(NoSuchField("name")))
    ensures v.VObject? ==> r == Names.NameOf(v.obj, p)
  {
    match v
    case VObject(o) => Names.NameOf(o, p)
    case _ => Err(Runtime(NoSuchField("name")))
  }

  /**
   * The field loop can read the object: `field.canAccess(object)` raises an
   * illegal argument for an object that is not an instance of the class,
   * but only a declared field reaches that call.
   */
  predicate FieldsAccessible(cls: ClassDesc, o: Obj) {
    |cls.fields| == 0 || o.cls == cls
  }

  /** `"%s %s %s .\n"`. */
  function Statement(subject: string, predicate': string, obj: string): string {
    subject + " " + predicate' + " " + obj + " .\n"
  }

  /** How many statements one field of a record contributes. */
  function FieldCount(f: Field, slot: Option<Value>): nat {
    match slot
    case None => 0
    case Some(v) => if f.kind.KList? then (if v.VList? then |v.items| else 0) else 1
  }

  /** Statements of a record's fields `k..`: nothing for null, one per element of a list, one otherwise. */
  function StatementCount(cls: ClassDesc, o: Obj, k: nat): nat
    requires k <= |cls.fields|
    decreases |cls.fields| - k
  {
    if k == |cls.fields| then 0 else FieldCount(cls.fields[k], Slot(o, k)) + StatementCount(cls, o, k + 1)
  }

  /** One statement per element of a list value, in order. */
  function ItemStatements(subject: string, predicate': string, items: seq<Value>,
                          ser: Value -> Result<string, Failure>): (r: Result<seq<string>, Failure>)
    ensures r.Ok? <==> forall j :: 0 <= j < |items| ==> ser(items[j]).Ok?
    ensures r.Ok? ==> |r.value| == |items|
    ensures r.Ok? ==> forall j :: 0 <= j < |items| ==> r.value[j] == Statement(subject, predicate', ser(items[j]).value)
  {
    if items == [] then Ok([])
    else
      assert forall j :: 1 <= j < |items| ==> items[j] == items[1..][j - 1];
      var head :- ser(items[0]);
      var rest :- ItemStatements(subject, predicate', items[1..], ser);
      Ok([Statement(subject, predicate', head)] + rest)
  }

  /** The statements of one field: a list field iterates its value (which must be a list). */
  function FieldStatements(f: Field, slot: Option<Value>, subject: string, prefix: string,
                           ser: Value -> Result<string, Failure>): (r: Result<seq<string>, Failure>)
    ensures r.Ok? ==> |r.value| == FieldCount(f, slot)
    ensures slot.None? ==> r == Ok([])
    ensures slot.Some? && f.kind.KList? && !slot.value.VList? ==> r == Err(ClassCast)
    ensures slot.Some? && !f.kind.KList? ==> (r.Ok? <==> ser(slot.value).Ok?)
    ensures slot.Some? && !f.kind.KList? && r.Ok? ==> r.value == [Statement(subject, prefix + ":" + f.name, ser(slot.value).value)]
    ensures slot.Some? && f.kind.KList? && slot.value.VList? ==>
      r == ItemStatements(subject, prefix + ":" + f.name, slot.value.items, ser)
  {
    match slot
    case None => Ok([])
    case Some(v) =>
      var pred := prefix + ":" + f.name;
      if f.kind.KList? then
        if v.VList? then ItemStatements(subject, pred, v.items, ser) else Err(ClassCast)
      else
        var s :- ser(v);
        Ok([Statement(subject, pred, s)])
  }

  /** Every field from `k` on writes without failure. */
  predicate FieldsWrite(cls: ClassDesc, o: Obj, subject: string, prefix: string,
                        ser: Value -> Result<string, Failure>, k: nat)
    requires k <= |cls.fields|
  {
    forall j :: k <= j < |cls.fields| ==> FieldStatements(cls.fields[j], Slot(o, j), subject, prefix, ser).Ok?
  }

  /** The loop over the declared fields, from field `k` on. */
  function RecordStatements(cls: ClassDesc, o: Obj, subject: string, prefix: string,
                            ser: Value -> Result<string, Failure>, k: nat): (r: Result<seq<string>, Failure>)
    requires k <= |cls.fields|
    ensures r.Ok? <==> FieldsWrite(cls, o, subject, prefix, ser, k)
    ensures r.Ok? ==> |r.value| == StatementCount(cls, o, k)
    decreases |cls.fields| - k
  {
    if k == |cls.fields| then Ok([])
    else
      var head :- FieldStatements(cls.fields[k], Slot(o, k), subject, prefix, ser);
      var rest :- RecordStatements(cls, o, subject, prefix, ser, k + 1);
      Ok(head + rest)
  }

  /** A record whose non-list field fails to serialise is not written. */
  lemma FailingFieldFailsRecord(cls: ClassDesc, o: Obj, subject: string, prefix: string,
                                ser: Value -> Result<string, Failure>, k: nat)
    requires k < |cls.fields| && Slot(o, k).Some? && !cls.fields[k].kind.KList? && ser(Slot(o, k).value).Err?
    ensures RecordStatements(cls, o, subject, prefix, ser, 0).Err?
  {
    assert !FieldStatements(cls.fields[k], Slot(o, k), subject, prefix, ser).Ok?;
  }

  function Flatten(blocks: seq<seq<string>>): (r: seq<string>)
  {
    if blocks == [] then [] else blocks[0] + Flatten(blocks[1..])
  }

  /** Total length of a sequence of blocks. */
  function SizeSum(blocks: seq<seq<string>>): nat {
    if blocks == [] then 0 else |blocks[0]| + SizeSum(blocks[1..])
  }

  lemma {:induction false} FlattenLength(blocks: seq<seq<string>>)
    ensures |Flatten(blocks)| == SizeSum(blocks)
  {
    if blocks != [] {
      FlattenLength(blocks[1..]);
    }
  }

  /** Statements over all records, each record counting its type line. */
  function RecordsSize(cls: ClassDesc, objects: seq<Obj>): nat {
    if objects == [] then 0 else 1 + StatementCount(cls, objects[0], 0) + RecordsSize(cls, objects[1..])
  }

  /** Blocks of one type line plus the record's statements have the records' total size. */
  lemma {:induction false} BlocksSize(cls: ClassDesc, objects: seq<Obj>, blocks: seq<seq<string>>)
    requires |blocks| == |objects|
    requires forall j :: 0 <= j < |objects| ==> |blocks[j]| == 1 + StatementCount(cls, objects[j], 0)
    ensures SizeSum(blocks) == RecordsSize(cls, objects)
  {
    if blocks != [] {
      BlocksSize(cls, objects[1..], blocks[1..]);
    }
  }
}
