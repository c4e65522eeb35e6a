/**
 * The CSV reader: header resolution, per-cell conversion, rows and files.
 * Both versions of the reader are covered; they differ only in how a list
 * of strings is built.
 */
module CsvReader {
  import opened Wrappers
  import opened Text
  import opened Schema
  import opened Decimal
  import opened CsvLine

  /** `service/CsvReader` and the older `CsvReader`. */
  datatype Version = Service | Legacy

  // ---------------------------------------------------------------------
  // Conversions
  // ---------------------------------------------------------------------

  /** The field types `setValue` converts a cell to directly. */
  predicate IsScalarKind(k: Kind) {
    k == KString || k == KLong || k == KInteger || k == KDate || k == KDouble || k == KBoolean
  }

  /** `v` is a value a field of kind `k` can hold. */
  predicate HasKind(v: Value, k: Kind)
    decreases v
  {
    match k
    case KString => v.VString?
    case KInteger => v.VInteger? && INT_MIN <= v.i <= INT_MAX
    case KLong => v.VLong? && LONG_MIN <= v.l <= LONG_MAX
    case KDouble => v.VDouble?
    case KBoolean => v.VBoolean?
    case KDate => v.VDate?
    case KList(item) =>
      v.VList? && item.Some? && forall j :: 0 <= j < |v.items| ==> HasKind(v.items[j], item.value)
    case _ => false
  }

  /** The exceptions a cell conversion can raise. */
  predicate IsConversionFailure(e: Failure) {
    e.NumberFormat? || e.DateTimeParse? || e.IllegalState? || e.IllegalArgument? || e.ClassCast?
  }

  /**
   * One text to one value: `Long.parseLong`, `Integer.parseInt`,
   * `LocalDate.parse`, `Double.parseDouble`, `Boolean.parseBoolean`, or the
   * text itself.  Only the string and boolean conversions cannot fail.
   */
  function Convert(k: Kind, text: string, p: Platform): (r: Result<Value, Failure>)
    requires IsScalarKind(k)
    ensures r.Ok? ==> HasKind(r.value, k)
    ensures r.Err? ==> IsConversionFailure(r.error)
    ensures k == KString || k == KBoolean ==> r.Ok?
    ensures k == KString ==> r == Ok(VString(text))
    ensures k == KInteger ==> (r.Ok? <==> IsSignedDecimal(text) && INT_MIN <= SignedValue(text) <= INT_MAX)
    ensures k == KLong ==> (r.Ok? <==> IsSignedDecimal(text) && LONG_MIN <= SignedValue(text) <= LONG_MAX)
    ensures (k == KInteger || k == KLong) && r.Err? ==> r.error == NumberFormat(text)
  {
    match k
    case KString => Ok(VString(text))
    case KLong =>
      var n :- ParseSigned(text, LONG_MIN, LONG_MAX);
      Ok(VLong(n))
    case KInteger =>
      var n :- ParseSigned(text, INT_MIN, INT_MAX);
      Ok(VInteger(n))
    case KDate =>
      (match p.parseDate(text)
       case Some(d) => Ok(VDate(d))
       case None => Err(DateTimeParse(text)))
    case KDouble =>
      (match p.parseDouble(text)
       case Some(d) => Ok(VDouble(d))
       case None => Err(NumberFormat(text)))
    case KBoolean => Ok(VBoolean(ParseBoolean(text)))
  }

  /** Converts every piece in order; the first failure aborts. */
  function ConvertAll(k: Kind, pieces: seq<string>, p: Platform): (r: Result<seq<Value>, Failure>)
    requires IsScalarKind(k)
    ensures r.Ok? <==> forall j :: 0 <= j < |pieces| ==> Convert(k, pieces[j], p).Ok?
    ensures r.Ok? ==> |r.value| == |pieces| && forall j :: 0 <= j < |pieces| ==> Convert(k, pieces[j], p) == Ok(r.value[j])
    ensures r.Err? ==> exists j :: 0 <= j < |pieces| && Convert(k, pieces[j], p) == Err(r.error)
                                   && forall i :: 0 <= i < j ==> Convert(k, pieces[i], p).Ok?
  {
    if pieces == [] then Ok([])
    else
      assert forall j :: 1 <= j < |pieces| ==> pieces[j] == pieces[1..][j - 1];
      match Convert(k, pieces[0], p)
      case Err(e) => Err(e)
      case Ok(v) =>
        match ConvertAll(k, pieces[1..], p)
        case Err(e) =>
          var j :| 0 <= j < |pieces[1..]| && Convert(k, pieces[1..][j], p) == Err(e)
                   && forall i :: 0 <= i < j ==> Convert(k, pieces[1..][i], p).Ok?;
          assert Convert(k, pieces[j + 1], p) == Err(e);
          Err(e)
        case Ok(vs) => Ok([v] + vs)
  }

  function TrimAll(ps: seq<string>): (r: seq<string>)
    ensures |r| == |ps| && forall j :: 0 <= j < |ps| ==> r[j] == Trim(ps[j])
  {
    seq(|ps|, j requires 0 <= j < |ps| => Trim(ps[j]))
  }

  /** A list cell: split on every comma, each piece trimmed. */
  function ListPieces(value: string): seq<string> {
    TrimAll(Split(value, ','))
  }

  /**
   * `deserializeList`.  The element type must be a class argument of one
   * of the scalar kinds.  A list of strings holds the trimmed pieces in the
   * service version, and the whole cell once per piece in the older one.
   */
  function DeserializeList(value: string, f: Field, version: Version, p: Platform): (r: Result<seq<Value>, Failure>)
    requires f.kind.KList?
    ensures r.Ok? ==> |r.value| == |ListPieces(value)|
    ensures r.Ok? ==> HasKind(VList(r.value), f.kind)
    ensures r.Err? ==> IsConversionFailure(r.error)
    ensures f.kind.item.None? ==> r == Err(IllegalArgument)
    ensures f.kind.item.Some? && f.kind.item.value.KList? ==> r == Err(ClassCast)
    ensures f.kind.item.Some? && !f.kind.item.value.KList? && !IsScalarKind(f.kind.item.value) ==> r == Err(IllegalArgument)
    ensures f.kind == KList(Some(KString)) ==> r.Ok?
    ensures f.kind == KList(Some(KString)) && version == Service ==>
      forall j :: 0 <= j < |r.value| ==> r.value[j] == VString(ListPieces(value)[j])
    ensures f.kind == KList(Some(KString)) && version == Legacy ==>
      forall j :: 0 <= j < |r.value| ==> r.value[j] == VString(value)
    ensures f.kind.item.Some? && IsScalarKind(f.kind.item.value) && f.kind.item.value != KString ==>
      r == ConvertAll(f.kind.item.value, ListPieces(value), p)
  {
    var pieces := ListPieces(value);
    var item :- ItemType(f);
    if item == KString then Ok(StringItems(value, pieces, version))
    else if IsScalarKind(item) then
      ConvertedHaveKind(item, pieces, p);
      ConvertAll(item, pieces, p)
    else Err(IllegalArgument)
  }

  /**
   * The strings of a `List<String>` cell: the pieces themselves in the
   * service version, the whole cell once per piece in the older one.
   */
  function StringItems(value: string, pieces: seq<string>, version: Version): (r: seq<Value>)
    ensures |r| == |pieces|
    ensures version == Service ==> forall j :: 0 <= j < |r| ==> r[j] == VString(pieces[j])
    ensures version == Legacy ==> forall j :: 0 <= j < |r| ==> r[j] == VString(value)
    ensures HasKind(VList(r), KList(Some(KString)))
  {
    match version
    case Service => seq(|pieces|, j requires 0 <= j < |pieces| => VString(pieces[j]))
    case Legacy => seq(|pieces|, _ => VString(value))
  }

  /** Every converted piece has the item kind, so the list has the list kind. */
  lemma ConvertedHaveKind(k: Kind, pieces: seq<string>, p: Platform)
    requires IsScalarKind(k)
    ensures ConvertAll(k, pieces, p).Ok? ==> HasKind(VList(ConvertAll(k, pieces, p).value), KList(Some(k)))
  {
    var r := ConvertAll(k, pieces, p);
    if r.Ok? {
      forall j | 0 <= j < |r.value|
        ensures HasKind(r.value[j], k)
      {
        assert Convert(k, pieces[j], p) == Ok(r.value[j]);
      }
    }
  }

  /** The cell after `@Remove`: every literal occurrence of its text deleted. */
  function Stripped(f: Field, value: string): string {
    if f.remove.Some? then Replace(value, f.remove.value, "") else value
  }

  /**
   * `setValue`: `None` when the cell equals the `@Ignore` sentinel exactly
   * (the field keeps its previous value); otherwise the converted value of
   * the cell after `@Remove`.
   */
  function SetValue(f: Field, value: string, version: Version, p: Platform): (r: Result<Option<Value>, Failure>)
    ensures f.ignore == Some(value) ==> r == Ok(None)
    ensures r == Ok(None) ==> f.ignore == Some(value)
    ensures r.Ok? && r.value.Some? ==> HasKind(r.value.value, f.kind)
    ensures r.Err? ==> IsConversionFailure(r.error)
    ensures f.ignore != Some(value) && f.kind == KString ==> r == Ok(Some(VString(Stripped(f, value))))
    ensures f.ignore != Some(value) && f.kind == KBoolean ==> r == Ok(Some(VBoolean(ParseBoolean(Stripped(f, value)))))
    ensures f.ignore != Some(value) && !IsScalarKind(f.kind) && !f.kind.KList? ==> r == Err(IllegalState)
  {
    if f.ignore == Some(value) then Ok(None)
    else
      var v := Stripped(f, value);
      if IsScalarKind(f.kind) then
        var x :- Convert(f.kind, v, p);
        Ok(Some(x))
      else if f.kind.KList? then
        var xs :- DeserializeList(v, f, version, p);
        Ok(Some(VList(xs)))
      else Err(IllegalState)
  }

  /** The two versions convert every cell alike, except into a list of strings. */
  lemma VersionsAgreeOutsideStringLists(f: Field, value: string, p: Platform)
    requires f.kind != KList(Some(KString))
    ensures SetValue(f, value, Service, p) == SetValue(f, value, Legacy, p)
  {
  }

  /** The older version fills a string list with copies of the whole cell. */
  lemma LegacyStringListRepeatsCell(f: Field, value: string, p: Platform)
    requires f.kind == KList(Some(KString)) && f.ignore != Some(value)
    ensures var r := SetValue(f, value, Legacy, p);
      && r.Ok? && r.value.Some? && r.value.value.VList?
      && |r.value.value.items| == |ListPieces(Stripped(f, value))|
      && forall j :: 0 <= j < |r.value.value.items| ==> r.value.value.items[j] == VString(Stripped(f, value))
  {
  }

  // ---------------------------------------------------------------------
  // Rows
  // ---------------------------------------------------------------------

  /** `readLine().toLowerCase().split(",")`: no trimming, no quote handling. */
  function Header(line: string): seq<string> {
    Split(Lower(line), ',')
  }

  /** Column `i` raises an exception: missing cell, unknown field or failed conversion. */
  predicate ColumnFails(fields: seq<Field>, header: seq<string>, values: seq<string>, i: nat, version: Version, p: Platform)
    requires i < |header|
  {
    || i >= |values|
    || (!IsBlank(values[i]) &&
        match FindField(fields, header[i])
        case None => true
        case Some(k) => SetValue(fields[k], values[i], version, p).Err?)
  }

  /** The exception column `i` raises. */
  function ColumnError(fields: seq<Field>, header: seq<string>, values: seq<string>, i: nat, version: Version, p: Platform): Failure
    requires i < |header|
  {
    if i >= |values| then IndexOutOfBounds(i)
    else match FindField(fields, header[i])
      case None => NoSuchField(header[i])
      case Some(k) =>
        match SetValue(fields[k], values[i], version, p)
        case Err(e) => e
        case Ok(_) => IllegalState
  }

  /** No column from `i` on raises an exception. */
  predicate ColumnsPass(fields: seq<Field>, header: seq<string>, values: seq<string>, i: nat, version: Version, p: Platform) {
    |values| >= |header| && forall j :: i <= j < |header| ==> !ColumnFails(fields, header, values, j, version, p)
  }

  /** Column `j` is the first from `i` on to raise an exception, and raises `e`. */
  predicate FirstFailure(fields: seq<Field>, header: seq<string>, values: seq<string>, i: nat, j: nat,
                         e: Failure, version: Version, p: Platform) {
    && i <= j < |header| && ColumnFails(fields, header, values, j, version, p)
    && e == ColumnError(fields, header, values, j, version, p)
    && forall j' :: i <= j' < j ==> !ColumnFails(fields, header, values, j', version, p)
  }

  /**
   * Reference for the row loop: the value field `k` holds after columns
   * `0..n`, namely the value set by the last non-blank, non-ignored cell
   * of a column naming it; `None` (null) if there is none.
   */
  function Assigned(fields: seq<Field>, header: seq<string>, values: seq<string>, n: nat, k: nat,
                    version: Version, p: Platform): Option<Value>
    requires n <= |header| && n <= |values| && k < |fields|
  {
    if n == 0 then None
    else
      var i := n - 1;
      if !IsBlank(values[i]) && FindField(fields, header[i]) == Some(k)
         && SetValue(fields[k], values[i], version, p).Ok? && SetValue(fields[k], values[i], version, p).value.Some?
      then SetValue(fields[k], values[i], version, p).value
      else Assigned(fields, header, values, n - 1, k, version, p)
  }

  /** `slots` holds, for every field, its reference value after columns `0..n`. */
  predicate AssignedUpTo(fields: seq<Field>, header: seq<string>, values: seq<string>, n: nat,
                         slots: seq<Option<Value>>, version: Version, p: Platform)
    requires n <= |header| && n <= |values|
  {
    |slots| == |fields| && forall k :: 0 <= k < |fields| ==> slots[k] == Assigned(fields, header, values, n, k, version, p)
  }

  /** One column's effect on the instance keeps it equal to the reference. */
  lemma AssignedStep(fields: seq<Field>, header: seq<string>, values: seq<string>, i: nat,
                     slots: seq<Option<Value>>, version: Version, p: Platform)
    requires i < |header| && i < |values|
    requires AssignedUpTo(fields, header, values, i, slots, version, p)
    requires !ColumnFails(fields, header, values, i, version, p)
    ensures AssignedUpTo(fields, header, values, i + 1, Apply(fields, header[i], values[i], slots, version, p), version, p)
  {
  }

  /** The instance after a column that does not fail. */
  function Apply(fields: seq<Field>, name: string, value: string, slots: seq<Option<Value>>,
                 version: Version, p: Platform): seq<Option<Value>>
    requires |slots| == |fields|
  {
    if IsBlank(value) then slots
    else match FindField(fields, name)
      case None => slots
      case Some(k) =>
        match SetValue(fields[k], value, version, p)
        case Ok(Some(v)) => slots[k := Some(v)]
        case _ => slots
  }

  /** The loop over the columns from `i` on, with the instance so far in `slots`. */
  function Fill(fields: seq<Field>, header: seq<string>, values: seq<string>, i: nat,
                slots: seq<Option<Value>>, version: Version, p: Platform): (r: Result<seq<Option<Value>>, Failure>)
    requires i <= |header| && i <= |values|
    requires AssignedUpTo(fields, header, values, i, slots, version, p)
    ensures r.Ok? <==> ColumnsPass(fields, header, values, i, version, p)
    ensures r.Ok? ==> |header| <= |values| && AssignedUpTo(fields, header, values, |header|, r.value, version, p)
    ensures r.Err? ==> exists j :: FirstFailure(fields, header, values, i, j, r.error, version, p)
    decreases |header| - i
  {
    if i == |header| then Ok(slots)
    else if ColumnFails(fields, header, values, i, version, p) then
      FailsHere(fields, header, values, i, version, p);
      Err(ColumnError(fields, header, values, i, version, p))
    else
      var next := Apply(fields, header[i], values[i], slots, version, p);
      AssignedStep(fields, header, values, i, slots, version, p);
      PassesHere(fields, header, values, i, version, p);
      var r := Fill(fields, header, values, i + 1, next, version, p);
      if r.Err? then
        var j :| FirstFailure(fields, header, values, i + 1, j, r.error, version, p);
        FailureLater(fields, header, values, i, j, r.error, version, p);
        r
      else
        r
  }

  /** A failing column is the first failure from itself on. */
  lemma FailsHere(fields: seq<Field>, header: seq<string>, values: seq<string>, i: nat, version: Version, p: Platform)
    requires i < |header| && ColumnFails(fields, header, values, i, version, p)
    ensures !ColumnsPass(fields, header, values, i, version, p)
    ensures FirstFailure(fields, header, values, i, i, ColumnError(fields, header, values, i, version, p), version, p)
  {
  }

  /** Past a passing column, the remaining columns decide. */
  lemma PassesHere(fields: seq<Field>, header: seq<string>, values: seq<string>, i: nat, version: Version, p: Platform)
    requires i < |header| && !ColumnFails(fields, header, values, i, version, p)
    ensures ColumnsPass(fields, header, values, i, version, p) <==> ColumnsPass(fields, header, values, i + 1, version, p)
  {
    if ColumnsPass(fields, header, values, i + 1, version, p) {
      forall j | i <= j < |header|
        ensures !ColumnFails(fields, header, values, j, version, p)
      {
        if j > i {
          assert i + 1 <= j < |header|;
        }
      }
    }
  }

  /** The first failure after a passing column is the first failure from that column on. */
  lemma FailureLater(fields: seq<Field>, header: seq<string>, values: seq<string>, i: nat, j: nat,
                     e: Failure, version: Version, p: Platform)
    requires i < |header| && !ColumnFails(fields, header, values, i, version, p)
    requires FirstFailure(fields, header, values, i + 1, j, e, version, p)
    ensures FirstFailure(fields, header, values, i, j, e, version, p)
  {
    PassingRunExtends(j' => 0 <= j' < |header| && ColumnFails(fields, header, values, j', version, p), i, j);
  }

  /**
   * A passing position in front of a passing run gives a longer run.  Stated
   * for any test so that the proof never looks inside a column's conversion.
   */
  lemma PassingRunExtends(fails: int -> bool, i: int, j: int)
    requires !fails(i) && forall j' :: i + 1 <= j' < j ==> !fails(j')
    ensures forall j' :: i <= j' < j ==> !fails(j')
  {
  }

  function EmptySlots(n: nat): (r: seq<Option<Value>>)
    ensures |r| == n && forall k :: 0 <= k < n ==> r[k].None?
  {
    seq(n, _ => None)
  }

  /** The reference instance of a row: each field's last assigned value. */
  predicate IsRowInstance(cls: ClassDesc, header: seq<string>, values: seq<string>, o: Obj, version: Version, p: Platform)
    requires |header| <= |values|
  {
    o.cls == cls && AssignedUpTo(cls.fields, header, values, |header|, o.slots, version, p)
  }

  /**
   * One data line to one instance: a missing cell, an unknown non-blank
   * column or a failed conversion aborts with that column's exception;
   * blank cells leave their field null; a field named by several columns
   * keeps the last value set.
   */
  function ReadRow(cls: ClassDesc, header: seq<string>, line: string, version: Version, p: Platform): (r: Result<Obj, Failure>)
    ensures r.Ok? <==> ColumnsPass(cls.fields, header, SplitAndClean(line), 0, version, p)
    ensures r.Ok? ==> |header| <= |SplitAndClean(line)| && IsRowInstance(cls, header, SplitAndClean(line), r.value, version, p)
    ensures r.Err? ==> exists j :: FirstFailure(cls.fields, header, SplitAndClean(line), 0, j, r.error, version, p)
  {
    var values := SplitAndClean(line);
    var slots :- Fill(cls.fields, header, values, 0, EmptySlots(|cls.fields|), version, p);
    Ok(Obj(cls, slots))
  }

  /** A row with fewer cells than header columns never yields an instance. */
  lemma ShortRowFails(cls: ClassDesc, header: seq<string>, line: string, version: Version, p: Platform)
    requires |SplitAndClean(line)| < |header|
    ensures ReadRow(cls, header, line, version, p).Err?
  {
  }

  /** An unknown column is reported only for a non-blank cell of a column no field is named after. */
  lemma UnknownColumnNeedsContent(cls: ClassDesc, header: seq<string>, line: string, version: Version, p: Platform, name: string)
    requires ReadRow(cls, header, line, version, p) == Err(NoSuchField(name))
    ensures exists j :: 0 <= j < |header| && j < |SplitAndClean(line)| && UnknownAt(cls, header, SplitAndClean(line), j, name)
  {
    var values := SplitAndClean(line);
    var j: nat :| FirstFailure(cls.fields, header, values, 0, j, NoSuchField(name), version, p);
    UnknownColumnAt(cls, header, values, j, name, version, p);
  }

  lemma UnknownColumnAt(cls: ClassDesc, header: seq<string>, values: seq<string>, j: nat, name: string, version: Version, p: Platform)
    requires FirstFailure(cls.fields, header, values, 0, j, NoSuchField(name), version, p)
    ensures j < |header| && j < |values| && UnknownAt(cls, header, values, j, name)
  {
  }

  predicate UnknownAt(cls: ClassDesc, header: seq<string>, values: seq<string>, j: nat, name: string)
    requires j < |header| && j < |values|
  {
    header[j] == name && !IsBlank(values[j]) && FindField(cls.fields, name).None?
  }

  // ---------------------------------------------------------------------
  // Files
  // ---------------------------------------------------------------------

  /** Row `j` is the first that fails, and it fails with `e`: the loop stops there. */
  predicate FirstFailingRow(cls: ClassDesc, header: seq<string>, rows: seq<string>, version: Version, p: Platform, j: nat, e: Failure) {
    && j < |rows|
    && ReadRow(cls, header, rows[j], version, p) == Err(e)
    && forall i :: 0 <= i < j ==> ReadRow(cls, header, rows[i], version, p).Ok?
  }

  /**
   * The `while (true)` loop over the data lines: one instance per row, in
   * order, or the exception of the first row that throws.
   */
  function ReadRows(cls: ClassDesc, header: seq<string>, rows: seq<string>, version: Version, p: Platform): (r: Result<seq<Obj>, Failure>)
    ensures r.Ok? <==> forall j :: 0 <= j < |rows| ==> ReadRow(cls, header, rows[j], version, p).Ok?
    ensures r.Ok? ==> |r.value| == |rows|
    ensures r.Ok? ==> forall j :: 0 <= j < |rows| ==> ReadRow(cls, header, rows[j], version, p) == Ok(r.value[j])
    ensures r.Err? ==> exists j :: FirstFailingRow(cls, header, rows, version, p, j, r.error)
  {
    if rows == [] then Ok([])
    else
      var first := ReadRow(cls, header, rows[0], version, p);
      if first.Err? then
        assert FirstFailingRow(cls, header, rows, version, p, 0, first.error);
        Err(first.error)
      else
        var rest := ReadRows(cls, header, rows[1..], version, p);
        RowsStep(cls, header, rows, version, p);
        if rest.Err? then
          FailingRowShifts(cls, header, rows, version, p, rest.error);
          Err(rest.error)
        else Ok([first.value] + rest.value)
  }

  /** After a passing first row, the first failure among the others is the first failure of all. */
  lemma FailingRowShifts(cls: ClassDesc, header: seq<string>, rows: seq<string>, version: Version, p: Platform, e: Failure)
    requires rows != [] && ReadRow(cls, header, rows[0], version, p).Ok?
    requires exists j :: FirstFailingRow(cls, header, rows[1..], version, p, j, e)
    ensures exists j :: FirstFailingRow(cls, header, rows, version, p, j, e)
  {
    var j: nat :| FirstFailingRow(cls, header, rows[1..], version, p, j, e);
    FirstErrShifts(rows, line => ReadRow(cls, header, line, version, p), j, e);
    assert FirstFailingRow(cls, header, rows, version, p, j + 1, e);
  }

  /**
   * The first `Err` among the items after the head, when the head reads, is
   * one place further on in the whole sequence.  Stated for any reader so
   * that the proof never looks inside a row's conversion.
   */
  lemma FirstErrShifts(xs: seq<string>, read: string -> Result<Obj, Failure>, j: nat, e: Failure)
    requires xs != [] && read(xs[0]).Ok?
    requires j < |xs| - 1 && read(xs[1..][j]) == Err(e)
    requires forall i :: 0 <= i < j ==> read(xs[1..][i]).Ok?
    ensures read(xs[j + 1]) == Err(e)
    ensures forall i :: 0 <= i < j + 1 ==> read(xs[i]).Ok?
  {
    assert forall i :: 1 <= i < j + 1 ==> xs[i] == xs[1..][i - 1];
  }

  /** The rows are the first row, then the others one place further on. */
  lemma RowsStep(cls: ClassDesc, header: seq<string>, rows: seq<string>, version: Version, p: Platform)
    requires rows != []
    ensures (forall j :: 0 <= j < |rows| ==> ReadRow(cls, header, rows[j], version, p).Ok?) <==>
      ReadRow(cls, header, rows[0], version, p).Ok? &&
      forall j :: 0 <= j < |rows| - 1 ==> ReadRow(cls, header, rows[1..][j], version, p).Ok?
    ensures forall first: Obj, rest: seq<Obj> ::
      ReadRow(cls, header, rows[0], version, p) == Ok(first) && |rest| == |rows| - 1 &&
      (forall j :: 0 <= j < |rest| ==> ReadRow(cls, header, rows[1..][j], version, p) == Ok(rest[j])) ==>
      forall j :: 0 <= j < |rows| ==> ReadRow(cls, header, rows[j], version, p) == Ok(([first] + rest)[j])
  {
    ReadsShift(rows, line => ReadRow(cls, header, line, version, p));
  }

  /** `RowsStep` for any reader, so that the proof never looks inside a row's conversion. */
  lemma ReadsShift(xs: seq<string>, read: string -> Result<Obj, Failure>)
    requires xs != []
    ensures (forall j :: 0 <= j < |xs| ==> read(xs[j]).Ok?) <==>
      read(xs[0]).Ok? && forall j :: 0 <= j < |xs| - 1 ==> read(xs[1..][j]).Ok?
    ensures forall first: Obj, rest: seq<Obj> ::
      read(xs[0]) == Ok(first) && |rest| == |xs| - 1 &&
      (forall j :: 0 <= j < |rest| ==> read(xs[1..][j]) == Ok(rest[j])) ==>
      forall j :: 0 <= j < |xs| ==> read(xs[j]) == Ok(([first] + rest)[j])
  {
    assert forall j :: 1 <= j < |xs| ==> xs[j] == xs[1..][j - 1];
  }

  /**
   * `readFile` over the lines of the file: the first is the header (an
   * empty file fails on it); every further line gives one instance, in
   * line order.
   */
  function ReadFile(lines: seq<string>, cls: ClassDesc, version: Version, p: Platform): (r: Result<seq<Obj>, Failure>)
    ensures lines == [] ==> r == Err(NullPointer)
    ensures lines != [] ==> (r.Ok? <==> forall j :: 1 <= j < |lines| ==> ReadRow(cls, Header(lines[0]), lines[j], version, p).Ok?)
    ensures r.Ok? ==> |r.value| == |lines| - 1
    ensures r.Ok? ==> forall j :: 1 <= j < |lines| ==> ReadRow(cls, Header(lines[0]), lines[j], version, p) == Ok(r.value[j - 1])
    ensures r.Err? && lines != [] ==> exists j ::
      && 1 <= j < |lines| && ReadRow(cls, Header(lines[0]), lines[j], version, p) == Err(r.error)
      && forall i :: 1 <= i < j ==> ReadRow(cls, Header(lines[0]), lines[i], version, p).Ok?
  {
    if lines == [] then Err(NullPointer)
    else
      assert forall j :: 1 <= j < |lines| ==> lines[j] == lines[1..][j - 1];
      var r := ReadRows(cls, Header(lines[0]), lines[1..], version, p);
      if r.Err? then
        var j: nat :| FirstFailingRow(cls, Header(lines[0]), lines[1..], version, p, j, r.error);
        assert lines[j + 1] == lines[1..][j];
        r
      else r
  }
  // ---------------------------------------------------------------------
  // The IMDB fixture
  // ---------------------------------------------------------------------

  /** A non-ignored integer cell is the parse of the text `@Remove` leaves. */
  lemma IntegerCell(f: Field, value: string, version: Version, p: Platform)
    requires f.kind == KInteger && f.ignore != Some(value)
    ensures ParseSigned(Stripped(f, value), INT_MIN, INT_MAX).Ok? ==>
      SetValue(f, value, version, p) == Ok(Some(VInteger(ParseSigned(Stripped(f, value), INT_MIN, INT_MAX).value)))
    ensures ParseSigned(Stripped(f, value), INT_MIN, INT_MAX).Err? ==>
      SetValue(f, value, version, p) == Err(ParseSigned(Stripped(f, value), INT_MIN, INT_MAX).error)
  {
  }

  /** `@Remove(",")` deletes the thousands separator before the parse. */
  lemma VotesThousands(version: Version, p: Platform)
    ensures IMDB_FILM_CSV[3] == VOTES
    ensures SetValue(VOTES, "1,234", version, p) == Ok(Some(VInteger(1234)))
  {
    StrippedVotes();
    ParsedVotes();
    IntegerCell(VOTES, "1,234", version, p);
  }

  lemma StrippedVotes()
    ensures Stripped(VOTES, "1,234") == "1234"
  {
    ReplaceSingleChar("1,234", ',', "");
    assert "1,234"[1..] == ",234" && ",234"[1..] == "234";
    assert ReplaceCharMap("1,234", ',', "") == "1234";
  }

  lemma ParsedVotes()
    ensures ParseSigned("1234", INT_MIN, INT_MAX) == Ok(1234)
  {
    assert "1234"[..3] == "123" && "123"[..2] == "12" && "12"[..1] == "1" && "1"[..0] == "";
    assert DigitsValue("1234") == 1234;
  }

  /** The `@Ignore` sentinel leaves the field null, while any other word fails to parse. */
  lemma VotesSentinel(version: Version, p: Platform)
    ensures SetValue(VOTES, "No Votes", version, p) == Ok(None)
    ensures SetValue(VOTES, "n/a", version, p) == Err(NumberFormat("n/a"))
  {
    ReplaceSingleChar("n/a", ',', "");
    assert "n/a"[1..] == "/a" && "/a"[1..] == "a" && "a"[1..] == "";
    assert ReplaceCharMap("n/a", ',', "") == "n/a";
    assert !IsAsciiDigit("n/a"[0]);
    IntegerCell(VOTES, "n/a", version, p);
  }

  /**
   * Headers are lower-cased before the field lookup, which is exact: a
   * camel-case field such as `releaseYear` can never be named by a column.
   */
  lemma CamelCaseFieldUnreachable(line: string)
    ensures Lower(line) == line ==> FindField(AMAZON_FILM.fields, line) != Some(5)
  {
    assert AMAZON_FILM.fields[5].name[7] == 'Y' && LowerChar('Y') == 'y';
    if Lower(line) == line && |line| > 7 {
      assert Lower(line)[7] == LowerChar(line[7]);
    }
  }
}
