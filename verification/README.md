# RdfsGenerator core, modelled in Dafny

RdfsGenerator turns film datasets (IMDB, Amazon, Netflix) into RDF. It does
this in several steps:

- it reads CSV files into record objects;
- it writes those records as Turtle text with an RDFS schema;
- it cleans malformed N-Triples dumps and picks namespace prefixes for them;
- it merges the converted datasets into one graph, linking films with the
  same title through `owl:sameAs` and adding a small unified ontology.

This project models the pure logic of those steps. Each step is a function
over explicit data, with contracts that state what the Java code promises.

| module | file | models |
|---|---|---|
| `Text` | text.dfy | the Java `String` operations the core relies on: `toLowerCase` (ASCII), `trim`, `isBlank`, `indexOf`, `lastIndexOf`, `replace`, `split` with its dropping of trailing empty strings, `%d` |
| `Decimal` | decimal.dfy | `Integer.parseInt` / `Long.parseLong` as one range-checked signed-decimal parse; `Boolean.parseBoolean` |
| `Schema` | schema.dfy | reflection made explicit. A class is a simple name plus ordered field descriptors (kind, `@Ignore`, `@Remove`, `@Replace`, `@Range`). An object is one optional value per field. Also the film classes of the repository, used as fixtures |
| `CsvLine` | csv_line.dfy | `splitAndClean`: the quote-parity comma split and the token cleaning |
| `CsvReader` | csv_reader.dfy | both CSV readers: `readFile`, `setValue`, `deserializeList`, `getField`, `isNotBlank` |
| `Names` | names.dfy | `NameExtractors.NAME_FIELD` |
| `WriterCore` | writer_core.dfy | what the two writers share: `calculateRange`, the property blocks and the statements of one record |
| `TurtleEscape` | turtle_escape.dfy | the string escaping of the Turtle writer, and the string escapes of section 6.4 of the W3C RDF 1.1 Turtle recommendation that undo it |
| `TtlWriter` | ttl_writer.dfy | `service/TtlWriter`: both `writeRdfsModel` overloads, `writeRdfsProperty` |
| `RdfsWriter` | rdfs_writer.dfy | `service/RdfsWriter`, and how its output differs from the Turtle writer's |
| `ClassNames` | class_names.dfy | `ClassLoader.extractClassName`, `extractPackage`, `extractSimpleClassName`, over the file's content |
| `NTriples` | ntriples.dfy | `containsInvalidURI`, `cleanURI`, and the per-line keep/clean/skip loop of `cleanAndConvert` |
| `Prefixes` | prefixes.dfy | `extractPrefix`, `generatePrefixName`, and the ordering and de-duplication in `setPrefixes` |
| `Levenshtein` | levenshtein.dfy | `levenshteinDistance` as a row-by-row loop, checked against the recursive definition |
| `Titles` | titles.dfy | `normalizeTitle`, `calculateSimilarity` and the 0.85 threshold |
| `Rdf` | rdf.dfy | nodes, triples, graphs as sets of triples, the RDF/RDFS/OWL vocabulary, `RDFNode.toString` |
| `Integrator` | integrator.dfy | `isFilmResource`, `extractTitle`, `areFilmsSimilar`, `addSameAsRelationships` |
| `Ontology` | ontology.dfy | `addUnifiedOntology`, `addUnifiedProperty`, `mapPropertyToUnified`, `addCrossDatasetRelationships`, and `integrateDatasets` without its I/O |

Exceptions are values of `Schema.Failure`, returned through `Result`, and
`null` is `None`. Anything the code gets from the JVM or from Jena without
defining it is a parameter:

- `Schema.Platform` holds `Double.parseDouble`, `LocalDate.parse`, and which
  characters above U+00FF are letters or digits;
- the order of the datasets is a `seq`;
- each dataset is the `seq` of its own model's statements, in the order the
  model lists them. Titles are looked up there, as `Resource.getProperty` does
  on the model a film resource came from;
- Jena's namespace of an IRI is a function `ns`.

Notes on the code as written, which the model follows:

- The header of a CSV file is lower-cased, and `getField` then looks up the
  declared field with exactly that name. A field with an upper-case letter,
  such as `AmazonFilm.releaseYear`, can therefore never be set from a column
  (`CsvReader.CamelCaseFieldUnreachable`). A case-insensitive reading of the
  header match would differ.
- The two CSV readers differ only in lists of strings. The older reader adds
  the whole cell once per comma-separated piece. The service reader adds the
  pieces.
- The Turtle writer's `rdf` and `rdfs` prefix lines have no trailing `#`.
  They are modelled as written (`TtlWriter.RDF_PREFIX_LINE`).
- `generatePrefixName`'s comment says the fallback uses the last segment of
  the IRI. The code takes the second-to-last piece of the `/` split, and so
  does the model.
- `containsInvalidURI` stops at the first `<` that has no `>` after it, so a
  space after that `<` goes unseen (`NTriples.UnclosedSpaceIsValid`).

## Model

| member | source | states |
|---|---|---|
| Text.Lower | src/main/java/org/example/service/CsvReader.java:23 | `toLowerCase` keeps the length and maps each character on its own (ASCII letters to lower case) |
| Text.LowerIdempotent | src/main/java/org/example/service/DataIntegrator.java:186 | lower-casing twice is lower-casing once |
| Text.IndexOf | src/main/java/org/example/NTriplesValidator.java:197-198 | `indexOf(c, from)`: the first position at or after `from` holding `c`, or none when no such position exists |
| Text.LastIndexOf | src/main/java/org/example/NTriplesValidator.java:188 | `lastIndexOf(c)`: -1 or a position holding `c` with no `c` after it |
| Text.FirstTrue | src/main/java/org/example/service/ClassLoader.java:43 | the first position from `i` whose flag is set, or none; every earlier flag is clear. It is the leftmost-match search the regex scanners use |
| Text.ReplaceSingleChar | src/main/java/org/example/model/rdfs/NameExtractors.java:15 | `String.replace` with a one-character target is the per-character map that swaps that character for the replacement |
| Text.ReplaceCharMapAppend | src/main/java/org/example/model/rdfs/NameExtractors.java:15 | the per-character replacement distributes over concatenation |
| Text.ReplaceCharMapAbsent | src/main/java/org/example/service/CsvReader.java:62 | replacing a character that does not occur changes nothing |
| Text.ReplaceCharRemoves | src/main/java/org/example/model/rdfs/NameExtractors.java:15 | after `replace(c, r)` no `c` is left unless `r` brings one back, and every character comes from the input or from `r` |
| Text.ReplaceCharMapRemoves | src/main/java/org/example/NTriplesValidator.java:231-234 | the same two facts for the per-character map |
| Text.TrimStart | src/main/java/org/example/service/CsvReader.java:46 | the suffix left after dropping the leading characters `<= ' '`: it starts with a character above space, and everything dropped is at most space |
| Text.TrimEnd | src/main/java/org/example/service/CsvReader.java:46 | the prefix left after dropping the trailing characters `<= ' '`, with the mirror-image facts |
| Text.TrimShape | src/main/java/org/example/service/DataIntegrator.java:189 | `trim` returns a slice whose first and last characters are above space |
| Text.TrimUnchanged | src/main/java/org/example/service/CsvReader.java:46 | a text with no character `<= ' '` at either end is its own trim |
| Text.Pieces | src/main/java/org/example/service/CsvReader.java:86 | cutting at `n` separator positions gives `n + 1` pieces |
| Text.DropTrailingEmpty | src/main/java/org/example/service/CsvReader.java:45 | Java's `split` drops exactly the trailing run of empty pieces, and keeps the order of the others |
| Text.CharCuts | src/main/java/org/example/service/CsvReader.java:86 | the cut positions are exactly the positions of the separator character, in increasing order |
| Text.JoinPieces | src/main/java/org/example/service/CsvReader.java:86 | joining the pieces back with the separator gives the original text |
| Text.NatToString | src/main/java/org/example/service/TtlWriter.java:29 | `%d` of a natural number is a non-empty run of decimal digits |
| Decimal.ParseSigned | src/main/java/org/example/service/CsvReader.java:66-69 | `parseInt` and `parseLong` succeed exactly on an optional sign followed by ASCII digits whose value lies in the type's range, give that value, and otherwise raise `NumberFormatException` for the text |
| Decimal.DigitsOfNat | src/main/java/org/example/service/TtlWriter.java:29 | the digits `%d` prints read back as the number |
| Decimal.ParseRendered | src/main/java/org/example/service/TtlWriter.java:76 | parsing the text `String.valueOf` gives for an in-range integer returns that integer |
| Decimal.ParseBoolean | src/main/java/org/example/service/CsvReader.java:74-75 | `parseBoolean` is true exactly when the text is `true` ignoring case, and it never fails |
| Decimal.ParseBooleanExamples | src/main/java/org/example/service/CsvReader.java:75 | `true`, `TRUE` and `True` parse as true; `yes`, ` true` and the empty text parse as false |
| Decimal.ParseSignedExamples | src/main/java/org/example/service/CsvReader.java:69 | `-42` and `+7` parse; `-`, the empty text and `1,234` are rejected |
| Schema.FindField | src/main/java/org/example/service/CsvReader.java:132-134 | `getDeclaredField(name)`: the first field with that exact name, or none when no field has it |
| Schema.ItemType | src/main/java/org/example/utils/ClassUtils.java:10-16 | a list field's element type, or `IllegalArgumentException` for a raw `List`. A nested list's element type is itself parameterised, so the `(Class<?>)` cast in `getItemType` raises `ClassCastException` |
| CsvLine.SeparatorCuts | src/main/java/org/example/service/CsvReader.java:45 | a comma splits the line exactly when an even number of `"` follow it on the line |
| CsvLine.CleanAll | src/main/java/org/example/service/CsvReader.java:46 | every token is cleaned on its own and in order |
| CsvLine.OpeningDeletesAtMostOneQuote | src/main/java/org/example/service/CsvReader.java:46 | the `^"` alternative deletes at most one quote |
| CsvLine.ClosingDeletesAtMostOneQuote | src/main/java/org/example/service/CsvReader.java:46 | the `"$` alternative deletes at most one quote, possibly just before a final line terminator |
| CsvLine.StripDeletesOnlyQuotes | src/main/java/org/example/service/CsvReader.java:46 | cleaning a token removes at most one leading and one trailing quote and nothing else. Inner doubled quotes are not collapsed |
| CsvLine.StripQuoted | src/main/java/org/example/service/CsvReader.java:46 | a quoted text loses exactly its outer quotes |
| CsvLine.CleanQuoted | src/main/java/org/example/service/CsvReader.java:46 | a trimmed, quoted token cleans to its contents |
| CsvLine.CleanUnquoted | src/main/java/org/example/service/CsvReader.java:46 | a token without outer blanks or quotes cleans to itself |
| CsvLine.NoQuotesSplitsEveryComma | src/main/java/org/example/service/CsvReader.java:45 | without quotes, every comma separates |
| CsvLine.NoQuotesFrom | src/main/java/org/example/service/CsvReader.java:45 | a quote-free line has no quotes after any position |
| CsvLine.QuoteFreeLine | src/main/java/org/example/service/CsvReader.java:45 | on a quote-free line the lookahead split is the plain `split(",")` |
| CsvLine.RejoinFields | src/main/java/org/example/service/CsvReader.java:45 | the separator pieces rejoined with commas give back the line, so the split loses nothing but separators |
| CsvLine.QuotesOfExample | src/main/java/org/example/service/CsvReader.java:45 | in `"x, y",5`: no quote follows the last comma, and one quote follows the comma inside the quotes |
| CsvLine.CutsOfExample | src/main/java/org/example/service/CsvReader.java:45 | in `"x, y",5` only the comma outside the quotes separates |
| CsvLine.FieldsOfExample | src/main/java/org/example/service/CsvReader.java:45 | `"x, y",5` splits into two fields |
| CsvLine.CleansOfExample | src/main/java/org/example/service/CsvReader.java:46 | those two fields clean to `x, y` and `5` |
| CsvLine.QuotedCommaExample | src/main/java/org/example/service/CsvReader.java:44-49 | `splitAndClean` keeps the comma inside quotes: `x, y` and `5` |
| CsvReader.Convert | src/main/java/org/example/service/CsvReader.java:64-77 | one cell text becomes a value of the field's type. A string stays verbatim. An integer or long is the signed ASCII-decimal parse in range, or `NumberFormatException`. A boolean never fails |
| CsvReader.ConvertAll | src/main/java/org/example/service/CsvReader.java:98-127 | converting a list succeeds exactly when every piece converts. It gives their values in order; otherwise it raises the failure of some piece |
| CsvReader.TrimAll | src/main/java/org/example/service/CsvReader.java:86-88 | every list piece is trimmed, in order |
| CsvReader.DeserializeList | src/main/java/org/example/service/CsvReader.java:85-130 | a list cell gives one element per comma-separated piece, each of the element type. A string list holds the pieces (service) or the whole cell (older reader). A raw list and an unsupported element type raise `IllegalArgumentException`, and a nested list a cast failure |
| CsvReader.StringItems | src/main/java/org/example/CsvReader.java:91-96 | the string-list branch: one string per piece, which is the piece itself in the service version and the whole cell in the older one |
| CsvReader.ConvertedHaveKind | src/main/java/org/example/service/CsvReader.java:98-127 | every element of a converted list has the element type |
| CsvReader.SetValue | src/main/java/org/example/service/CsvReader.java:51-83 | a cell equal to the `@Ignore` sentinel leaves the field null, and only such a cell does. Otherwise `@Remove` text is deleted and the rest converted to the field's type. An unsupported type raises `IllegalStateException` |
| CsvReader.VersionsAgreeOutsideStringLists | src/main/java/org/example/CsvReader.java:49-81 | the two readers set every field alike except a list of strings |
| CsvReader.LegacyStringListRepeatsCell | src/main/java/org/example/CsvReader.java:83-96 | the older reader fills a string list with copies of the whole cell, one per comma-separated piece |
| CsvReader.AssignedStep | src/main/java/org/example/service/CsvReader.java:33-37 | processing one more column keeps every field equal to its reference value, the last value a column set |
| CsvReader.Fill | src/main/java/org/example/service/CsvReader.java:33-38 | the column loop succeeds exactly when no column fails, and then leaves every field at its reference value. Otherwise it raises the exception of the first failing column |
| CsvReader.FailsHere | src/main/java/org/example/service/CsvReader.java:33-37 | a failing column is the first failure from itself on |
| CsvReader.PassesHere | src/main/java/org/example/service/CsvReader.java:33-37 | a passing column does not decide whether the rest of the row passes |
| CsvReader.FailureLater | src/main/java/org/example/service/CsvReader.java:33-37 | after a passing column, the first later failure is the first failure |
| CsvReader.EmptySlots | src/main/java/org/example/service/CsvReader.java:31 | a new instance has every field null |
| CsvReader.ReadRow | src/main/java/org/example/service/CsvReader.java:31-39 | a data line gives an instance exactly when no column fails, holding each field's last assigned value. Otherwise it raises the first failing column's exception: a missing cell, an unknown non-blank column, or a failed conversion |
| CsvReader.ShortRowFails | src/main/java/org/example/service/CsvReader.java:33-34 | a line with fewer cells than header columns raises an exception; it does not leave fields unset |
| CsvReader.UnknownColumnNeedsContent | src/main/java/org/example/service/CsvReader.java:34-35 | `NoSuchFieldException` comes only from a non-blank cell under a header naming no field |
| CsvReader.UnknownColumnAt | src/main/java/org/example/service/CsvReader.java:34-35 | the column a `NoSuchField` failure points at is non-blank and unknown |
| CsvReader.ReadRows | src/main/java/org/example/service/CsvReader.java:27-40 | one instance per line, in line order, exactly when every line reads. Otherwise the loop stops at the first line that throws, and the result is that line's exception |
| CsvReader.FailingRowShifts | src/main/java/org/example/service/CsvReader.java:27-40 | when the first line reads, the first failing line among the others is the first failing line overall |
| CsvReader.RowsStep | src/main/java/org/example/service/CsvReader.java:27-40 | the rows read are the first row followed by the rest |
| CsvReader.ReadFile | src/main/java/org/example/service/CsvReader.java:19-42 | the first line is the lower-cased header. Each later line gives one instance, in order, exactly when all of them read. Otherwise the exception is that of the first data line that throws, every line before it having read. An empty file fails on its header |
| CsvReader.IntegerCell | src/main/java/org/example/service/CsvReader.java:61-69 | a non-ignored integer cell holds the parse of what `@Remove` leaves, or raises that parse's failure |
| CsvReader.VotesThousands | src/main/java/org/example/service/CsvReader.java:61-69 | the IMDB `votes` cell `1,234` becomes 1234, since `@Remove(",")` deletes the thousands separator |
| CsvReader.StrippedVotes | src/main/java/org/example/service/CsvReader.java:61-62 | `@Remove(",")` turns `1,234` into `1234` |
| CsvReader.ParsedVotes | src/main/java/org/example/service/CsvReader.java:69 | `1234` parses as an int |
| CsvReader.VotesSentinel | src/main/java/org/example/service/CsvReader.java:58-69 | the sentinel `No Votes` leaves the field null, while `n/a` raises `NumberFormatException` |
| CsvReader.CamelCaseFieldUnreachable | src/main/java/org/example/service/CsvReader.java:23 | a lower-cased header name never selects the field `releaseYear` |
| Names.Filter | src/main/java/org/example/model/rdfs/NameExtractors.java:13 | the filtered name is no longer than the input and holds only letters, digits and spaces |
| Names.FilterAppend | src/main/java/org/example/model/rdfs/NameExtractors.java:13 | the filter works character by character, so the kept characters stay in their original order |
| Names.FilterMembership | src/main/java/org/example/model/rdfs/NameExtractors.java:13 | a character is in the result exactly when it is in the input and is a letter, a digit or a space |
| Names.FilterKeepsNameText | src/main/java/org/example/model/rdfs/NameExtractors.java:13 | a text of letters, digits and spaces is unchanged by the filter |
| Names.FilterIdempotent | src/main/java/org/example/model/rdfs/NameExtractors.java:13 | filtering twice is filtering once |
| Names.NameOf | src/main/java/org/example/model/rdfs/NameExtractors.java:6-21 | the name of an object whose `name` field holds a string is that field filtered, with `@Replace` applied. A class without a `name` field makes `getDeclaredField` throw, and the extractor rethrows that as a `RuntimeException` wrapping it. A null name is an uncaught `NullPointerException` and a non-string name an uncaught `ClassCastException` |
| Names.PlainName | src/main/java/org/example/model/rdfs/NameExtractors.java:13 | without `@Replace` the name is no longer than the field, and filtering it again changes nothing |
| Names.ReplacedNameHasNoSpace | src/main/java/org/example/model/rdfs/NameExtractors.java:14-16 | with `@Replace(r)`, where `r` has no space, the name has no space |
| Names.ReplacedNameMapsSpaces | src/main/java/org/example/model/rdfs/NameExtractors.java:15 | with `@Replace(r)` every space becomes `r`, and other characters stay |
| Names.ImdbNameExample | src/main/java/org/example/model/rdfs/NameExtractors.java:6-21 | the IMDB record named `Star Wars: IV`, with `@Replace("_")`, is named `Star_Wars_IV` |
| Names.UnderscoreExample | src/main/java/org/example/model/rdfs/NameExtractors.java:15 | `replace(" ", "_")` turns `Star Wars IV` into `Star_Wars_IV` |
| Names.UnderscoreMap | src/main/java/org/example/model/rdfs/NameExtractors.java:15 | the per-character map agrees with that example |
| Names.ThreeWords | src/main/java/org/example/model/rdfs/NameExtractors.java:15 | three space-separated words are joined by the replacement |
| Names.FilterExample | src/main/java/org/example/model/rdfs/NameExtractors.java:13 | the filter drops the colon of `Star Wars: IV` |
| Names.ReplaceAfterWord | src/main/java/org/example/model/rdfs/NameExtractors.java:15 | the replacement of a space after a space-free word |
| WriterCore.ElementKind | src/main/java/org/example/service/TtlWriter.java:96-100 | the type the range rule tests: the element type for a list, else the declared type |
| WriterCore.CalculateRange | src/main/java/org/example/service/TtlWriter.java:95-111 | `@Range` wins. Otherwise a literal element type (string, integer, long, double) gives `rdfs:Literal`, and any other gives `prefix:` plus the declared type's simple name. A raw list fails on its element type even with `@Range` |
| WriterCore.ListRanges | src/main/java/org/example/service/TtlWriter.java:98-110 | a list of literals ranges over `rdfs:Literal`, and any other list over `prefix:List` |
| WriterCore.NonLiteralScalarRanges | src/main/java/org/example/service/RdfsWriter.java:97-101 | boolean and date fields are not literal types: they range over `prefix:Boolean` and `prefix:LocalDate` |
| WriterCore.RawListFailsDespiteRange | src/main/java/org/example/service/TtlWriter.java:98-104 | the element type is looked up before `@Range`, so a raw list fails |
| WriterCore.ImdbRdfsModelRanges | src/main/java/org/example/dto/ImdbFilmRdfsModel.java:1-24 | every field of the IMDB RDFS model ranges over literals |
| WriterCore.NameOfValue | src/main/java/org/example/service/TtlWriter.java:63-64 | a non-literal value is named by the name extractor. Only a record has a `name` field, so a Boolean, a date or a list gives the extractor's `RuntimeException` wrapping the missing-field error |
| WriterCore.ItemStatements | src/main/java/org/example/service/TtlWriter.java:36-45 | a list field writes one statement per element, in order, exactly when every element serialises |
| WriterCore.FieldStatements | src/main/java/org/example/service/TtlWriter.java:31-55 | a null field writes nothing, and a scalar one statement when its value serialises. A list writes its element statements; a list field holding a non-list fails its cast |
| WriterCore.RecordStatements | src/main/java/org/example/service/TtlWriter.java:30-56 | a record's statements are written exactly when every field writes, and their number is the non-null scalars plus the list lengths |
| WriterCore.FailingFieldFailsRecord | src/main/java/org/example/service/TtlWriter.java:47-53 | one scalar that does not serialise fails the whole record |
| WriterCore.PropertyBlocks | src/main/java/org/example/service/TtlWriter.java:87-92 | one three-line block per declared field, in declaration order, exactly when every range can be computed. The Turtle writer declares an `rdf:Property` with a prefixed domain; the older writer (`RdfsWriter.java` lines 78-83) declares an `rdfs:Property` with the bare class name |
| WriterCore.FlattenLength | src/main/java/org/example/service/TtlWriter.java:28-57 | the writes of all records number the sum of the per-record counts |
| WriterCore.BlocksSize | src/main/java/org/example/service/TtlWriter.java:28-57 | that sum is one type line plus the statement count, per record |
| TtlWriter.Serialize | src/main/java/org/example/service/TtlWriter.java:61-77 | a string is written quoted, and its body reads back as the string under Turtle's escapes. Other literal values are written as `String.valueOf`. Anything else is `:` and its extracted name, and fails when that name does |
| TtlWriter.Header | src/main/java/org/example/service/TtlWriter.java:81-93 | three prefix lines (the rdf and rdfs ones without `#`) and the class line, then the property blocks: `4 + 3·fields` writes |
| TtlWriter.Records | src/main/java/org/example/service/TtlWriter.java:27-57 | records numbered from 1 in list order, each one type line then its statements, exactly when every record writes. An object of another class fails only once a declared field is read |
| TtlWriter.ForeignObject | src/main/java/org/example/service/TtlWriter.java:28-31 | an object of another class raises `IllegalArgumentException` at the first declared field's `canAccess`. With no declared field it gets its type line |
| TtlWriter.NoFieldsAlwaysWrite | src/main/java/org/example/service/TtlWriter.java:28-30 | a class with no declared fields writes one type line per object, whatever the objects' class |
| TtlWriter.BlocksStep | src/main/java/org/example/service/TtlWriter.java:28-29 | the first record is numbered `i` and the rest from `i + 1` |
| TtlWriter.Write | src/main/java/org/example/service/TtlWriter.java:25-59 | the output is the header followed by every record's block. Its length is `4 + 3·fields` plus, per record, one type line and its statements |
| TtlWriter.NonLiteralScalarFails | src/main/java/org/example/service/TtlWriter.java:63-64 | a non-null boolean or date field has no `name` to extract, so the writer fails |
| RdfsWriter.Serialize | src/main/java/org/example/service/RdfsWriter.java:65-73 | literal values are written bare with `String.valueOf`; anything else is the bare extracted name |
| RdfsWriter.Header | src/main/java/org/example/service/RdfsWriter.java:75-84 | no prefix lines: the class line first, then the blocks |
| RdfsWriter.Records | src/main/java/org/example/service/RdfsWriter.java:32-62 | each record's subject is `:` plus its extracted name, and a record without a name fails. The name is extracted before the field loop reads the object |
| RdfsWriter.ForeignObject | src/main/java/org/example/service/RdfsWriter.java:33-36 | an object of another class fails first with the extractor's exception when it has no name. A named one raises `IllegalArgumentException` at the first declared field, and with no declared field it gets its type line |
| RdfsWriter.Write | src/main/java/org/example/service/RdfsWriter.java:30-63 | the header, then every record's block: `1 + 3·fields` plus, per record, one line and its statements |
| RdfsWriter.SerializersCompared | src/main/java/org/example/service/RdfsWriter.java:65-73 | compared with the Turtle writer: numbers are written alike, a non-literal gains `:` there, and a string is quoted and escaped there but bare here |
| RdfsWriter.SameFieldsWrite | src/main/java/org/example/service/RdfsWriter.java:35-61 | whether a record's fields serialise is the same in both writers |
| RdfsWriter.OutputsDifferByPrefixLines | src/main/java/org/example/service/TtlWriter.java:82-84 | when both writers succeed, the Turtle output has exactly three more writes: its prefix lines |
| TurtleEscape.Escape | src/main/java/org/example/service/TtlWriter.java:68-73 | the five chained `replace` calls of `writeRdfsProperty`. Its contract is stated by `TurtleEscape.EscapeIsPerCharacter`, `TurtleEscape.UnescapeEscape` and `TurtleEscape.EscapeHasNoRawBreaks` |
| TurtleEscape.EscapeIsChain | src/main/java/org/example/service/TtlWriter.java:68-73 | the five chained `replace` calls act as character maps |
| TurtleEscape.ChainAppend | src/main/java/org/example/service/TtlWriter.java:68-73 | the chain distributes over concatenation |
| TurtleEscape.ChainOne | src/main/java/org/example/service/TtlWriter.java:68-73 | on one character the chain gives that character's escape |
| TurtleEscape.EscapeIsPerCharacter | src/main/java/org/example/service/TtlWriter.java:68-73 | because the backslash is escaped first, no escape is escaped again: the chain escapes each character on its own |
| TurtleEscape.UnescapeOne | src/main/java/org/example/service/TtlWriter.java:68-73 | reading one escaped character gives that character back |
| TurtleEscape.UnescapeEach | src/main/java/org/example/service/TtlWriter.java:68-74 | reading the per-character escape gives back the text |
| TurtleEscape.UnescapeEscape | src/main/java/org/example/service/TtlWriter.java:66-74 | Turtle's string escapes undo the writer's escaping: the round trip returns the input |
| TurtleEscape.EachHasNoRawBreaks | src/main/java/org/example/service/TtlWriter.java:71-73 | the per-character escape has no raw line feed, carriage return or tab |
| TurtleEscape.EscapeHasNoRawBreaks | src/main/java/org/example/service/TtlWriter.java:71-73 | an escaped string has no raw line feed, carriage return or tab |
| TurtleEscape.EachPlain | src/main/java/org/example/service/TtlWriter.java:68-73 | text with nothing to escape is unchanged by the per-character escape |
| TurtleEscape.EscapePlain | src/main/java/org/example/service/TtlWriter.java:68-73 | text with nothing to escape is unchanged |
| TurtleEscape.EscapeTwiceDiffers | src/main/java/org/example/service/TtlWriter.java:69 | escaping is not idempotent: a backslash doubles again |
| ClassNames.RunEnd | src/main/java/org/example/service/ClassLoader.java:41 | the end of the longest run of matching characters from a position, as a greedy regex quantifier finds it |
| ClassNames.PackageAtMatches | src/main/java/org/example/service/ClassLoader.java:41 | the scanner at a position finds a package name exactly when `package\s+([\w.]+)\s*;` matches there, and then returns the group |
| ClassNames.PackageHits | src/main/java/org/example/service/ClassLoader.java:42-43 | the positions where the package pattern matches |
| ClassNames.FirstPackage | src/main/java/org/example/service/ClassLoader.java:43 | `find`: the leftmost position where the package pattern matches |
| ClassNames.ExtractPackage | src/main/java/org/example/service/ClassLoader.java:40-47 | the group of the leftmost package match, or `""` when there is none (no error). The result holds only word characters and dots |
| ClassNames.ClassAt | src/main/java/org/example/service/ClassLoader.java:50 | a captured class name is a non-empty run of word characters |
| ClassNames.Optional | src/main/java/org/example/service/ClassLoader.java:50 | an optional modifier group never moves backwards or past the end |
| ClassNames.AllModifiers | src/main/java/org/example/service/ClassLoader.java:50 | `public`, `abstract` and `final` are the pattern's modifiers |
| ClassNames.Modifiers | src/main/java/org/example/service/ClassLoader.java:50 | the modifier groups never move backwards or past the end |
| ClassNames.PatternHits | src/main/java/org/example/service/ClassLoader.java:51-52 | the positions where the class pattern matches |
| ClassNames.FirstPattern | src/main/java/org/example/service/ClassLoader.java:52 | `find`: the leftmost position where the class pattern matches |
| ClassNames.KeywordHits | src/main/java/org/example/service/ClassLoader.java:50 | the positions where `class\s+(\w+)` matches |
| ClassNames.FirstKeyword | src/main/java/org/example/service/ClassLoader.java:50 | the leftmost such position |
| ClassNames.ExtractSimpleClassName | src/main/java/org/example/service/ClassLoader.java:49-56 | the group of the leftmost class-pattern match, a non-empty word; `IllegalArgumentException` when the pattern matches nowhere |
| ClassNames.OptionalHasNoClass | src/main/java/org/example/service/ClassLoader.java:50 | a modifier consumed by an optional group never hides the keyword `class` |
| ClassNames.OptionalAtClass | src/main/java/org/example/service/ClassLoader.java:50 | at the keyword `class` an optional modifier group matches empty |
| ClassNames.ModifiersHaveNoClass | src/main/java/org/example/service/ClassLoader.java:50 | the modifier groups together never pass over the keyword `class` |
| ClassNames.ModifiersAtClass | src/main/java/org/example/service/ClassLoader.java:50 | at the keyword `class` the modifier groups match empty |
| ClassNames.ClassPatternAtClass | src/main/java/org/example/service/ClassLoader.java:50 | where `class\s+\w+` matches, the full pattern matches with the same group |
| ClassNames.NoKeywordBefore | src/main/java/org/example/service/ClassLoader.java:50-52 | the leftmost full match lands on a keyword match with no keyword match before it |
| ClassNames.PatternLandsOnKeyword | src/main/java/org/example/service/ClassLoader.java:50-52 | the leftmost full match, after its modifiers, is the leftmost keyword match |
| ClassNames.FirstSame | src/main/java/org/example/service/ClassLoader.java:50-54 | the full pattern and `class\s+(\w+)` match in the same texts and capture the same name |
| ClassNames.ModifiersIrrelevant | src/main/java/org/example/service/ClassLoader.java:49-55 | the optional modifiers never change which name is captured: it is the name after the first `class` + whitespace |
| ClassNames.ExtractClassName | src/main/java/org/example/service/ClassLoader.java:34-38 | `pkg.Name` when a package is declared, `Name` otherwise, and the simple-name failure when there is no class |
| ClassNames.DotJoinSplits | src/main/java/org/example/service/ClassLoader.java:37 | a package joined by a dot to a dot-free name splits back at the last dot |
| ClassNames.QualifiedNameSplits | src/main/java/org/example/service/ClassLoader.java:34-38 | the qualified name splits at its last dot into the package and the simple name |
| NTriples.Invalid | src/main/java/org/example/NTriplesValidator.java:195-208 | `containsInvalidURI`. Its contract is stated by `NTriples.InvalidIffSegment` and `NTriples.UnclosedSpaceIsValid` |
| NTriples.InvalidIffSegment | src/main/java/org/example/NTriplesValidator.java:195-208 | `containsInvalidURI` is true exactly when some scanned `<…>` segment, before the first unclosed `<`, holds a space or a tab |
| NTriples.SomeSegmentCons | src/main/java/org/example/NTriplesValidator.java:197-205 | a space or tab in the first segment or in a later one |
| NTriples.SegmentIsChain | src/main/java/org/example/NTriplesValidator.java:231-234 | the four chained `replace` calls on a segment act as character maps |
| NTriples.SegmentChainAppend | src/main/java/org/example/NTriplesValidator.java:231-234 | the chain distributes over concatenation |
| NTriples.MapOne | src/main/java/org/example/NTriplesValidator.java:231-234 | one character maps to the replacement or to itself |
| NTriples.MapThree | src/main/java/org/example/NTriplesValidator.java:231-234 | a replacement leaves unchanged any text that lacks its target character |
| NTriples.SegmentChainOne | src/main/java/org/example/NTriplesValidator.java:231-234 | on one character the chain gives that character's cleaning |
| NTriples.CleanSegmentPerCharacter | src/main/java/org/example/NTriplesValidator.java:231-234 | segment cleaning maps each character on its own: space to `%20`, tab to `%09`, CR and LF to nothing |
| NTriples.CleanEachContents | src/main/java/org/example/NTriplesValidator.java:231-234 | a cleaned segment has no space, tab, CR or LF, and it has `<` or `>` exactly when the input did |
| NTriples.CleanEachIdentity | src/main/java/org/example/NTriplesValidator.java:231-234 | a segment with nothing to clean is unchanged |
| NTriples.UnclosedInTail | src/main/java/org/example/NTriplesValidator.java:216-227 | an unclosed `<` after a segment is unclosed in the whole line |
| NTriples.UnclosedPastSegment | src/main/java/org/example/NTriplesValidator.java:216-227 | an unclosed `<` lies after the first closed segment |
| NTriples.Clean | src/main/java/org/example/NTriplesValidator.java:210-246 | `cleanURI`. Its contract is stated by `NTriples.CleanFailsIffUnclosed`, `NTriples.NoSegmentsUnchanged`, `NTriples.CleanShape` and `NTriples.CleanIsValidAndStable` |
| NTriples.CleanFailsIffUnclosed | src/main/java/org/example/NTriplesValidator.java:210-246 | `cleanURI` returns null exactly when some `<` it reaches has no `>` after it |
| NTriples.NoSegmentsUnchanged | src/main/java/org/example/NTriplesValidator.java:215-220 | a line without `<` is returned as it is |
| NTriples.IndexOfAt | src/main/java/org/example/NTriplesValidator.java:216 | `indexOf` finds the first occurrence |
| NTriples.ScanOpen | src/main/java/org/example/NTriplesValidator.java:216 | in a cleaned line the scanner finds the segment's `<` again |
| NTriples.ScanClose | src/main/java/org/example/NTriplesValidator.java:224 | and the segment's `>` again |
| NTriples.ScanParts | src/main/java/org/example/NTriplesValidator.java:216-239 | a cleaned line splits back into its prefix, its segment and its rest |
| NTriples.CleanIsValidAndStable | src/main/java/org/example/NTriplesValidator.java:210-246 | a cleaned line has no invalid IRI, and cleaning it again changes nothing |
| NTriples.CleanShape | src/main/java/org/example/NTriplesValidator.java:215-240 | a cleaned line is the text before the first `<`, the cleaned segment in brackets, then the cleaned rest |
| NTriples.CleanUnfold | src/main/java/org/example/NTriplesValidator.java:215-240 | one turn of the cleaning loop |
| NTriples.InvalidShape | src/main/java/org/example/NTriplesValidator.java:197-205 | one turn of the invalid-IRI scan |
| NTriples.CleanOnClean | src/main/java/org/example/NTriplesValidator.java:210-246 | a line built from a clean segment and a clean rest is valid and cleans to itself |
| NTriples.CleanStep | src/main/java/org/example/NTriplesValidator.java:215-240 | validity and stability pass from the rest of the line to the whole line |
| NTriples.Decide | src/main/java/org/example/NTriplesValidator.java:39-54 | blank lines and `#` lines are dropped, and only those. Every other line is kept when valid, replaced by its valid cleaned form, or skipped when it has an unclosed `<` |
| NTriples.Process | src/main/java/org/example/NTriplesValidator.java:36-59 | every line is counted, and written plus skipped lines never exceed that count. Every written line is free of invalid IRIs |
| NTriples.Tally | src/main/java/org/example/NTriplesValidator.java:37-54 | one more line keeps the counts consistent and the output valid |
| NTriples.Emitted | src/main/java/org/example/NTriplesValidator.java:43-54 | what one line contributes: itself when kept, its cleaned form when cleaned, nothing otherwise |
| NTriples.ProcessStep | src/main/java/org/example/NTriplesValidator.java:36-59 | the loop writes the first line's contribution and then the rest's, and counts a skip only for a skipped line |
| NTriples.ProcessContents | src/main/java/org/example/NTriplesValidator.java:36-59 | the written lines are exactly the kept lines and the cleaned forms of the invalid ones. The skipped count is zero exactly when no line is skipped |
| NTriples.ValidLineKept | src/main/java/org/example/NTriplesValidator.java:51-53 | a valid, non-blank, non-comment line is copied verbatim |
| NTriples.UnclosedSpaceIsValid | src/main/java/org/example/NTriplesValidator.java:197-199 | a space after an unclosed `<` is not seen: the line counts as valid, yet cleaning it would return null |
| Prefixes.ExtractPrefix | src/main/java/org/example/NTriplesValidator.java:187-193 | the IRI up to and including its last `/` or `#`, when that separator is neither the first nor the last character; otherwise null |
| Prefixes.NamespaceSplitUnique | src/main/java/org/example/NTriplesValidator.java:188 | an IRI has at most one namespace split |
| Prefixes.ExtractPrefixIff | src/main/java/org/example/NTriplesValidator.java:187-193 | `extractPrefix` returns `uri[..n]` exactly when `n` is the namespace split |
| Prefixes.NamespaceHasNoNamespace | src/main/java/org/example/NTriplesValidator.java:187-193 | an extracted namespace ends with its separator, so it has no namespace of its own |
| Prefixes.FirstRule | src/main/java/org/example/NTriplesValidator.java:125-151 | the first substring rule, in listed order, that the IRI contains |
| Prefixes.GeneratePrefixName | src/main/java/org/example/NTriplesValidator.java:123-160 | the first matching rule's name. Otherwise the second-to-last piece of the `/` split when there are more than three pieces, else `ns` |
| Prefixes.RuleOrder | src/main/java/org/example/NTriplesValidator.java:125-151 | a matching rule wins unless an earlier rule matches too |
| Prefixes.LinkedMdbNamed | src/main/java/org/example/NTriplesValidator.java:125-136 | every LinkedMDB resource IRI gets one of the twelve LinkedMDB names |
| Prefixes.Insert | src/main/java/org/example/NTriplesValidator.java:107 | inserting into a sorted order keeps it sorted and adds exactly the new entry |
| Prefixes.SortedOrder | src/main/java/org/example/NTriplesValidator.java:106-107 | the stable sort of the first `n` entries is a permutation of them by descending count |
| Prefixes.Order | src/main/java/org/example/NTriplesValidator.java:106-107 | the namespaces sorted by descending count, equal counts in iteration order, as a permutation |
| Prefixes.FirstWins | src/main/java/org/example/NTriplesValidator.java:109-120 | names already bound stay bound; every name generated gets bound |
| Prefixes.FirstWinsKeys | src/main/java/org/example/NTriplesValidator.java:109-120 | the bound names are exactly the names used before plus the names generated |
| Prefixes.FirstWinsFirst | src/main/java/org/example/NTriplesValidator.java:111-119 | each new name is bound to the first namespace in sorted order that generates it |
| Prefixes.SortedBindings | src/main/java/org/example/NTriplesValidator.java:106-113 | each sorted namespace paired with its generated name |
| Prefixes.SetPrefixes | src/main/java/org/example/NTriplesValidator.java:95-121 | the prefix table binds the seven standard names and every discovered name. A discovered binding replaces a standard one of the same name |
| Prefixes.BestNamespaceWins | src/main/java/org/example/NTriplesValidator.java:106-120 | a name goes to the namespace that sorts first among those generating it |
| Prefixes.OutcountedNamespaceDropped | src/main/java/org/example/NTriplesValidator.java:115-119 | a namespace outranked by another with the same name is not bound |
| Prefixes.StandardKept | src/main/java/org/example/NTriplesValidator.java:97-103 | a standard prefix that no namespace renames keeps its IRI |
| Levenshtein.DistStep | src/main/java/org/example/service/DataIntegrator.java:216-221 | an inner cell is the least of deletion, insertion and substitution (cost 0 on equal characters) |
| Levenshtein.LevenshteinDistance | src/main/java/org/example/service/DataIntegrator.java:204-226 | the table loop returns the edit distance of the two strings |
| Levenshtein.NextRow | src/main/java/org/example/service/DataIntegrator.java:214-222 | one outer iteration fills row `i` of the table from row `i - 1` |
| Levenshtein.CellStep | src/main/java/org/example/service/DataIntegrator.java:215-221 | one inner iteration fills the next cell of the row |
| Levenshtein.DistSymmetric | src/main/java/org/example/service/DataIntegrator.java:204-226 | the distance is symmetric |
| Levenshtein.DistSelf | src/main/java/org/example/service/DataIntegrator.java:204-226 | a string is at distance 0 from itself |
| Levenshtein.DistBounds | src/main/java/org/example/service/DataIntegrator.java:204-226 | the distance is at least the length difference and at most the longer length |
| Levenshtein.DistZero | src/main/java/org/example/service/DataIntegrator.java:204-226 | distance 0 means equal strings |
| Levenshtein.DistanceProperties | src/main/java/org/example/service/DataIntegrator.java:204-226 | d(s,s) = 0, d(s,"") = |s|, d("",t) = |t|, symmetry, d = 0 exactly for equal strings, and length difference ≤ d ≤ longer length |
| Levenshtein.DistAtMostMismatches | src/main/java/org/example/service/DataIntegrator.java:217-221 | for equal lengths the distance is at most the number of mismatched positions |
| Levenshtein.DistAtLeastCountGap | src/main/java/org/example/service/DataIntegrator.java:217-221 | the distance is at least the difference in the count of any one character |
| Levenshtein.CountAtMost | src/main/java/org/example/service/DataIntegrator.java:204-226 | a character occurs no more often than the length |
| Titles.NormalizeTitle | src/main/java/org/example/service/DataIntegrator.java:185-190 | `normalizeTitle`: lower-case, drop everything but `a-z`, `0-9` and `\s`, collapse `\s+` to one space, trim. Its contract is stated by `Titles.NormalizeIsNormal`, `Titles.NormalizeFixesNormal`, `Titles.NormalizeIdempotent` and `Titles.NormalizeIgnoresCase` |
| Titles.StripPunctuation | src/main/java/org/example/service/DataIntegrator.java:187 | `[^a-z0-9\s]` removal leaves only letters `a-z`, digits and `\s` |
| Titles.DropSpaces | src/main/java/org/example/service/DataIntegrator.java:188 | a `\s+` run ends at the first non-space |
| Titles.SingleSpacedCons | src/main/java/org/example/service/DataIntegrator.java:188 | prefixing a title character, or a space before a non-space, keeps the text single-spaced |
| Titles.CollapseSingleSpaced | src/main/java/org/example/service/DataIntegrator.java:187-188 | collapsing `\s+` after the filter gives title characters and single spaces |
| Titles.SliceSingleSpaced | src/main/java/org/example/service/DataIntegrator.java:188-189 | a slice of single-spaced text is single-spaced |
| Titles.TrimSingleSpaced | src/main/java/org/example/service/DataIntegrator.java:189 | trimming single-spaced text gives a normal title |
| Titles.NormalSlice | src/main/java/org/example/service/DataIntegrator.java:189 | a single-spaced slice without outer spaces is a normal title |
| Titles.NormalizeIsNormal | src/main/java/org/example/service/DataIntegrator.java:185-190 | a normalised title holds only `a-z`, `0-9` and single interior spaces, with no leading or trailing space |
| Titles.StripKeepsNormal | src/main/java/org/example/service/DataIntegrator.java:187 | the filter keeps a normal title |
| Titles.LowerKeepsNormal | src/main/java/org/example/service/DataIntegrator.java:186 | lower-casing keeps a normal title |
| Titles.CollapseKeepsSingleSpaced | src/main/java/org/example/service/DataIntegrator.java:188 | collapsing keeps single-spaced text |
| Titles.NormalizeFixesNormal | src/main/java/org/example/service/DataIntegrator.java:185-190 | a normal title normalises to itself |
| Titles.NormalizeIdempotent | src/main/java/org/example/service/DataIntegrator.java:185-190 | normalising twice is normalising once |
| Titles.NormalizeIgnoresCase | src/main/java/org/example/service/DataIntegrator.java:186 | normalisation does not see case |
| Titles.TitlesSimilar | src/main/java/org/example/service/DataIntegrator.java:150-160 | the title comparison of `areFilmsSimilar` after both titles are found. Its contract is stated by `Titles.SimilarIff` (equal normal forms, or `20·d < 3·max`) and `Titles.SimilarSymmetric` |
| Titles.CalculateSimilarity | src/main/java/org/example/service/DataIntegrator.java:195-199 | `1 - d / maxLength`, undefined exactly when both strings are empty |
| Titles.ThresholdInIntegers | src/main/java/org/example/service/DataIntegrator.java:160 | `1 - d/m > 0.85` exactly when `20·d < 3·m` |
| Titles.SimilarIff | src/main/java/org/example/service/DataIntegrator.java:150-160 | titles equal after normalisation always match, even two empty ones. Otherwise the similarity is defined, and the titles match exactly when `20·d < 3·max(|a|,|b|)` |
| Titles.SimilarSymmetric | src/main/java/org/example/service/DataIntegrator.java:150-160 | matching does not depend on argument order |
| Titles.BoundaryRatioDoesNotMatch | src/main/java/org/example/service/DataIntegrator.java:160 | a ratio of exactly 3/20 does not match, because the comparison is strict |
| Titles.NormalTitlesCompared | src/main/java/org/example/service/DataIntegrator.java:150-160 | two normal titles match exactly when equal or when `20·d < 3·max` |
| Titles.SimilarOfNormalized | src/main/java/org/example/service/DataIntegrator.java:150-160 | two titles match exactly when their normal forms are equal or within the ratio |
| Titles.StarWarsIsNormal | src/main/java/org/example/service/DataIntegrator.java:185-190 | `star wars`, `star wers` and `stur wors` are already normal |
| Titles.StarWarsMatchesStarWers | src/main/java/org/example/service/DataIntegrator.java:159-160 | `star wars` and `star wers` match (d = 1, m = 9) |
| Titles.MismatchesOfWers | src/main/java/org/example/service/DataIntegrator.java:216 | the two differ at one position |
| Titles.CountsOfA | src/main/java/org/example/service/DataIntegrator.java:216 | `star wars` has two `a` and `stur wors` none |
| Titles.StarWarsDoesNotMatchSturWors | src/main/java/org/example/service/DataIntegrator.java:159-160 | `star wars` and `stur wors` do not match (d ≥ 2) |
| Integrator.IsFilmResource | src/main/java/org/example/service/DataIntegrator.java:129-136 | a named resource whose IRI starts with one of the three dataset namespaces and contains neither `Film` nor `#`. Its use is stated by `Integrator.FilmCandidates` |
| Integrator.FilmCandidates | src/main/java/org/example/service/DataIntegrator.java:83-97 | the candidates are exactly the subjects of `rdf:type` statements that pass the film filter (a dataset IRI without `Film` or `#`), one per statement |
| Integrator.CandidateLists | src/main/java/org/example/service/DataIntegrator.java:81-98 | one candidate list per dataset, in dataset order |
| Integrator.FirstIndex | src/main/java/org/example/service/DataIntegrator.java:173 | the first listed statement with the given subject and predicate, or none when there is none |
| Integrator.FirstObject | src/main/java/org/example/service/DataIntegrator.java:173-175 | `getProperty` on the model a listing describes: the object of its first statement with that subject and predicate, or null exactly when it has none |
| Integrator.FirstObjectStep | src/main/java/org/example/service/DataIntegrator.java:173-175 | `getProperty` takes the first statement when it has that subject and predicate, and otherwise looks further down the listing |
| Integrator.ExtractTitle | src/main/java/org/example/service/DataIntegrator.java:166-180 | the `title` property in the film's own namespace, else `name`, looked up in the film's dataset and rendered as text; null exactly when that dataset gives it neither |
| Integrator.AreFilmsSimilar | src/main/java/org/example/service/DataIntegrator.java:141-161 | both titles present, each read from its film's own dataset, and similar. Its contract is stated by `Integrator.UntitledNeverMatches`, `Integrator.FilmsSimilarSymmetric` and `Titles.SimilarIff` |
| Integrator.UntitledNeverMatches | src/main/java/org/example/service/DataIntegrator.java:142-147 | a film without a title in its dataset matches nothing, on either side |
| Integrator.FilmsSimilarSymmetric | src/main/java/org/example/service/DataIntegrator.java:141-161 | film similarity, each film with its own dataset, is symmetric |
| Integrator.FirstObjectIgnoresSameAs | src/main/java/org/example/service/DataIntegrator.java:173 | `owl:sameAs` statements do not change a lookup of another predicate |
| Integrator.TitlePredicateIsNotSameAs | src/main/java/org/example/service/DataIntegrator.java:168-171 | the title predicates are never `owl:sameAs` |
| Integrator.TitlesIgnoreSameAs | src/main/java/org/example/service/DataIntegrator.java:166-180 | two dataset listings that differ only in `owl:sameAs` statements give every film the same title |
| Integrator.LinksFrom | src/main/java/org/example/service/DataIntegrator.java:113-118 | the edges from one film go to exactly the films of the other list that are similar, each title read in its own dataset |
| Integrator.PairLinks | src/main/java/org/example/service/DataIntegrator.java:109-119 | for one pair of datasets, an edge for exactly the similar (first, second) pairs |
| Integrator.LinksToLater | src/main/java/org/example/service/DataIntegrator.java:105-120 | edges from the films of one dataset to exactly the similar films of each later dataset |
| Integrator.LaterStep | src/main/java/org/example/service/DataIntegrator.java:104 | a film matches in some later dataset exactly when it matches in the next one or in one after it |
| Integrator.DatasetLinks | src/main/java/org/example/service/DataIntegrator.java:101-121 | the loop's edges are exactly the pairs (film of dataset i, film of dataset j), i before j, whose titles in their own datasets are similar; in that direction only |
| Integrator.LinkedForwardStep | src/main/java/org/example/service/DataIntegrator.java:103-104 | a forward pair either starts at the first dataset or lies wholly among the later ones |
| Integrator.AddSameAsRelationships | src/main/java/org/example/service/DataIntegrator.java:79-124 | the combined graph only grows; every new statement is a forward `sameAs` edge between films whose titles, each read in its own dataset, are similar; every such pair is linked |
| Integrator.UntitledFilmNeverLinked | src/main/java/org/example/service/DataIntegrator.java:141-147 | a film without a title in every dataset that lists it is never linked, in either direction, even when another dataset gives the same IRI a title |
| Integrator.DatasetUnique | src/main/java/org/example/service/DataIntegrator.java:104-105 | with disjoint datasets a film belongs to one dataset only |
| Integrator.NoSelfOrReverseEdges | src/main/java/org/example/service/DataIntegrator.java:101-121 | with disjoint datasets the loop never links a film to itself and never adds the reverse edge |
| Ontology.SubClassListed | src/main/java/org/example/service/DataIntegrator.java:243-245 | every listed class becomes a subclass of the unified film |
| Ontology.MappingListed | src/main/java/org/example/service/DataIntegrator.java:289-296 | every mapping row adds its `subPropertyOf` edge |
| Ontology.PropertyListed | src/main/java/org/example/service/DataIntegrator.java:278-284 | every listed property gets its four declarations |
| Ontology.SubClassSubject | src/main/java/org/example/service/DataIntegrator.java:243-245 | the subclass statements are about the listed classes only |
| Ontology.MappingSubject | src/main/java/org/example/service/DataIntegrator.java:289-296 | the mapping statements are about the mapped properties only |
| Ontology.PropertySubject | src/main/java/org/example/service/DataIntegrator.java:278-284 | the property declarations are about the unified properties only |
| Ontology.OntologySubjects | src/main/java/org/example/service/DataIntegrator.java:231-273 | everything the ontology says is about a subject its tables name |
| Ontology.UnifiedPropertiesDeclared | src/main/java/org/example/service/DataIntegrator.java:278-284 | each unified property is an `rdf:Property` with domain film and range literal |
| Ontology.AddUnifiedOntology | src/main/java/org/example/service/DataIntegrator.java:231-273 | the graph grows by the ontology only. The unified film class is declared with its label and comment. Each of the five unified properties gets its type, comment, domain and range. Each dataset class becomes a subclass of the unified film, whether or not the data uses it. Each mapped property becomes a sub-property of its unified property. No other subject is described |
| Ontology.MappedNamesAreUnified | src/main/java/org/example/service/DataIntegrator.java:248-270 | every mapping row names one of the five declared unified properties |
| Ontology.AddUnifiedOntologyIdempotent | src/main/java/org/example/service/DataIntegrator.java:231-273 | adding the ontology twice is adding it once |
| Ontology.CrossDatasetTriples | src/main/java/org/example/service/DataIntegrator.java:304-310 | exactly the type and comment statements of the listed properties |
| Ontology.AddCrossDatasetRelationships | src/main/java/org/example/service/DataIntegrator.java:302-314 | it only declares `hasSimilarRating` and `sharesSameGenre` as properties and relates no films |
| Ontology.AddCrossDatasetRelationshipsIdempotent | src/main/java/org/example/service/DataIntegrator.java:302-314 | declaring them twice is declaring them once |
| Ontology.UnionAll | src/main/java/org/example/service/DataIntegrator.java:45-50 | the combined graph is exactly the union of the datasets |
| Ontology.Integrate | src/main/java/org/example/service/DataIntegrator.java:37-74 | every input statement survives. Every other statement is a forward `sameAs` edge between films whose titles in their own datasets are similar, part of the unified ontology (only when requested), or a cross-dataset declaration. Every such forward pair is linked |

## Left out

- Files, readers, writers and consoles are left out: file opening, `System.out`, `Writer.flush`, and the partial output a writer has already produced when it throws. The writers return the sequence of `write` arguments or the exception.
- Jena parsing, model merging and Turtle serialisation (`integrateDatasets` I/O, the N-Triples reload and `RDFDataMgr.write`) are foreign library code. The graph is a set of triples.
- `QueryExecutor`, `TtlImporter`, both `TtlConverter` classes and `Main` lie outside the core: a SPARQL engine, an HTTP endpoint and command-line dispatch.
- `ClassLoader.loadClass` is runtime compilation and class loading. `extractClassName` takes the file's content rather than its path.
- `discoverPrefixes` is left out: it scans a file and stops after 100000 lines. Its per-namespace counts are the input of `Prefixes.SetPrefixes`.
- `printIntegrationStats` only prints counts.
- `Double.parseDouble` and `LocalDate.parse` are floating-point and calendar logic. They are parameters in `Schema.Platform`, and the textual form of their results is taken as given.
- Text.Lower: maps only ASCII letters, whereas Java's `toLowerCase` also folds other Unicode letters (for example the Kelvin sign to `k`). It also follows the default locale: in a Turkish locale an ASCII `I` becomes the dotless `ı` (U+0131), which changes the header names `readFile` looks up. The model assumes a locale with the root casing rules.
- Names.Filter: decides `\p{L}` and `\p{N}` from a Latin-1 table, and leaves characters above U+00FF to `Platform.isWideLetterOrDigit`.
- `HashMap` iteration order and Jena's statement order are inputs: the dataset order, the order of each dataset's listing, which decides the statement `getProperty` returns, and the iteration order of the prefix counts.
- Titles.CalculateSimilarity: computes `1 - d/m` as an exact rational instead of a double. The threshold test is then proved equal to `20·d < 3·m`, which the double comparison also gives for title lengths far below 2^52.
- Decimal.ParseSigned: accepts only the ASCII digits `0`-`9`. `Integer.parseInt` and `Long.parseLong` accept any character that `Character.digit(c, 10)` maps to a digit, such as Arabic-Indic or fullwidth digits. On such text the model reports `NumberFormatException` where Java parses a number.
- CsvReader.Convert: inherits that gap for `Integer`, `Long` and list-element cells. A cell written in non-ASCII decimal digits is a `NumberFormatException` here, and so is the row (`CsvReader.ReadRow`) and the file (`CsvReader.ReadFile`) it is in.
- Primitive field kinds (`int`, `long`, `double`, `boolean`) exist in the range rule but are not exercised, since no fixture class declares one. `setValue` rejects them, as the Java code does.
- TurtleEscape.Unescape: covers the `ECHAR` escapes of section 6.4 of the W3C RDF 1.1 Turtle recommendation, not the `\u`/`\U` numeric escapes. The writer never produces those.
- Jena's rules for legal prefix names and its handling of rebinding an existing prefix are not modelled. `setNsPrefix` is a map update.
- NTriples.Process: the written lines are characterised as a set of lines, not as an ordered subsequence of the input.
- TtlWriter.Records and RdfsWriter.Records: the `NameExtractor` parameter is fixed to `NameExtractors.NAME_FIELD` (`Names.NameOf`); other extractors are not modelled.
- RdfsWriter.Records: the older writer imports `NameExtractor`, `NameExtractors` and `Range` from `org.example.model`, not from `org.example.model.rdfs`. Those classes are not part of this model; they are assumed to behave like the `rdfs` ones, so the writer shares `Names.NameOf` and the single `Field.range`.
- `levenshteinDistance`'s `int[][]` table is a sequence of rows, each appended once it is filled, instead of a preallocated array. The cells are the same.
