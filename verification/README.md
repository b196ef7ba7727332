# json2csv in Dafny

A model of the core of json2csv, which turns a decoded JSON value into CSV rows.
The conversion has three layers, and the model follows them.

- **JSON Pointers** (RFC 6901), in the `jsonpointer` package.
  - Tokens are escaped (`~` as `~0`, `/` as `~1`) and unescaped in one left-to-right pass.
  - Tokens are classified as ints and indices.
  - Pointer text is parsed after trimming white space.
  - A pointer object grows and shrinks in place (`Append`, `AppendString`, `Pop`) and can be cloned.
  - A pointer renders as JSON Pointer text or in dot notation.
  - `Get` evaluates a pointer against a value.
- **Flattening** (`flatten.go`, `json2csv.go`).
  - A value is walked recursively: object fields in ascending byte order, array elements by position.
  - Every string, number and boolean leaf is written into one shared map, under the JSON Pointer text of its path.
  - The top-level dispatch gives one record for an object and one record per element for an array of objects. Any other array gives one record. Anything else is an error.
- **Table assembly** (`pointers.go`, `csv_writer.go`).
  - The keys of all records are parsed back into pointers.
  - The pointers are sorted by `pointers.Less`: fewer tokens first, then token by token in byte order.
  - The header is rendered in one of four key styles.
  - Rows are written in normal or transposed orientation to a writer that may refuse rows.

The older pointer variant in `json_util.go` (`Keys`: string and int parts) is modelled as well.

Files, one module each:

| file | module | models |
|---|---|---|
| base.dfy | `Base` | `Option`, `Result`, the error kinds |
| strutil.dfy | `StrUtil` | the standard-library pieces the core calls: `strings.TrimSpace` (with Go's white-space set), `Split`, `Join`, byte-wise string `<`, `strconv.Atoi` (64-bit range), `strconv.Itoa` |
| sorting.dfy | `Sorting` | `Swap`, an in-place sort standing for `sort.Sort`, and the fact that a sorted arrangement is unique |
| json.dfy | `Json` | the decoded JSON value (numbers keep their text, as `json.Number` does) |
| token.dfy | `Token` | jsonpointer/token.go |
| jsonpointer.dfy | `JsonPointer` | jsonpointer/jsonpointer.go |
| pointers.dfy | `Pointers` | pointers.go |
| flatten.dfy | `Flattening` | flatten.go |
| json2csv.dfy | `Conversion` | json2csv.go |
| csv_writer.dfy | `CsvWriter` | csv_writer.go |
| json_util.dfy | `JsonUtil` | json_util.go |

The model follows the code, including in these places:

- **A null root.** `reflect.ValueOf(nil)` is the zero `reflect.Value`, and `Interface()` on it panics. So `Get` on a null root fails for every pointer, the root pointer included. A null stored under a key is a valid value, and `Get` returns it.
- **Cells are looked up by the re-rendered pointer text.** Parsing a key trims its surrounding white space. So a record key with trailing white space (`/B `) becomes the column `/B`, and the cell under that column is empty. `CsvWriter.TrailingSpaceKeyNotFound` shows this. The expectation in csv_writer_test.go:34-37 (header `/B ` with the value filled in) is not what the code produces. The model follows the code.
- **Dot-bracket style with a leading index token.** Rendering `DotNotation(true)` when the first token is an index indexes an empty slice, which panics (jsonpointer/jsonpointer.go:125). The top-level array dispatch produces exactly such pointers. So the panic is a failure result (`None`, and `IndexOutOfRangePanic` in the writer) rather than a precondition.

## Model

| member | source | states |
|---|---|---|
| Token.UnescapeTokenString | jsonpointer/token.go:17-22 | unescaping never lengthens the text and leaves text without `~` unchanged |
| Token.UnescapeOnePass | jsonpointer/token.go:17-22 | one pass, no rescanning: `~01` unescapes to `~1` (not `/`) and `~1` to `/` |
| Token.EscapedString | jsonpointer/token.go:25-30 | the escaped text never holds a `/`; text with neither `~` nor `/` is unchanged |
| Token.EscapedStringAppend | jsonpointer/token.go:25-30 | escaping works character by character: it distributes over concatenation |
| Token.EscapeExamples | jsonpointer/token.go:25-30 | `a/b` escapes to `a~1b` and `~/` to `~0~1` |
| Token.UnescapeEscaped | jsonpointer/token.go:17-30 | round trip: unescaping the escaped form of any token gives the token back |
| Token.EscapeUnescaped | jsonpointer/token.go:17-30 | the other round trip: on canonically escaped text, escaping the unescaped form gives the text back |
| Token.EscapedIsCanonical | jsonpointer/token.go:25-30 | escaped text is canonical: no `/`, and every `~` is followed by `0` or `1` |
| Token.NewTokenFromEscaped | jsonpointer/token.go:12-14 | the token escapes back to canonically escaped text and equals text without `~` |
| Token.IsInt | jsonpointer/token.go:33-36 | an int token is an optional sign and then digits only, is non-empty and ends with a digit; every all-digit token within the int64 range is an int |
| Token.IsIntBySign | jsonpointer/token.go:33-36 | the exact shape `Atoi` accepts, by first character: `-` then one or more digits worth at most 2^63; `+` then one or more digits worth at most 2^63 - 1; or digits alone worth at most 2^63 - 1 |
| Token.IsIntExamples | jsonpointer/token.go:33-36 | a lone sign and the empty token are not ints; `-5`, `+7` and `07` are |
| Token.IsIndex | jsonpointer/token.go:39-49 | an index token is an int token made of digits only |
| Token.IsIndexIsDecimalForm | jsonpointer/token.go:39-49 | a token is an index if and only if `Atoi` reads a non-negative value whose decimal form is the token itself (no sign, no superfluous leading zero) |
| Token.PositionIsIndex | jsonpointer/token.go:39-49 | every array position renders (with `Itoa`) as an index token that `Atoi` reads back as that position |
| JsonPointer.UnescapeAll | jsonpointer/jsonpointer.go:30-33 | one unescaped token per piece of text, in order |
| JsonPointer.TokensOf | jsonpointer/jsonpointer.go:25-33 | text with a leading character gives one token per `/` after it, plus one |
| JsonPointer.New | jsonpointer/jsonpointer.go:15-36 | error exactly when the trimmed text is non-empty and does not start with `/`, and the error carries the trimmed text; blank text is the root pointer; otherwise the tokens of the trimmed text |
| JsonPointer.NewTokenCount | jsonpointer/jsonpointer.go:15-36 | a parsed pointer has one token per `/` in the trimmed text |
| JsonPointer.NewSlash | jsonpointer/jsonpointer.go:25-35 | `/` parses to one empty token |
| JsonPointer.NewDoubleSlash | jsonpointer/jsonpointer.go:25-35 | `//` parses to two empty tokens |
| JsonPointer.NewWithoutSlash | jsonpointer/jsonpointer.go:16-23 | ` a` fails with `Invalid JSON Pointer` carrying the trimmed text `a` |
| JsonPointer.Strings | jsonpointer/jsonpointer.go:88-94 | one plain string per token, in order |
| JsonPointer.EscapedStrings | jsonpointer/jsonpointer.go:97-103 | one escaped string per token, in order, none holding a `/` |
| JsonPointer.String | jsonpointer/jsonpointer.go:106-113 | the text is empty exactly for the root pointer; otherwise it starts with `/` |
| JsonPointer.StringSlashes | jsonpointer/jsonpointer.go:106-113 | the text holds exactly one `/` per token |
| JsonPointer.StringAppend | jsonpointer/jsonpointer.go:106-113 | appending a token appends `/` and the escaped token to the text |
| JsonPointer.TokensOfString | jsonpointer/jsonpointer.go:25-33 | reading the tokens back from the rendered text gives the pointer |
| JsonPointer.ParseString | jsonpointer/jsonpointer.go:15-36 | round trip: `New(p.String())` is `p` whenever the text has no surrounding white space |
| JsonPointer.StringParse | jsonpointer/jsonpointer.go:106-113 | the other round trip: trimmed, canonically escaped pointer text parses and renders back to itself |
| JsonPointer.StringInjective | jsonpointer/jsonpointer.go:106-113 | distinct pointers render as distinct text |
| JsonPointer.BracketSegments | jsonpointer/jsonpointer.go:121-129 | the segments fail exactly when the first token is an index; otherwise they are empty exactly for the root pointer |
| JsonPointer.DotNotation | jsonpointer/jsonpointer.go:116-131 | fails (the panic) exactly in bracket style with an index as first token; the root pointer gives `""` |
| JsonPointer.DotStylesAgreeWithoutIndices | jsonpointer/jsonpointer.go:116-131 | without index tokens both dot styles give the same text |
| JsonPointer.DotBracketAppendIndex | jsonpointer/jsonpointer.go:123-125 | in bracket style a trailing index token is written `[t]` right after the previous segment |
| JsonPointer.DotBracketAppendName | jsonpointer/jsonpointer.go:126-130 | in bracket style a trailing non-index token starts a new segment after a `.` |
| JsonPointer.ZeroAbsorbs | jsonpointer/jsonpointer.go:142-156 | after a missing key, every further token is ignored |
| JsonPointer.ScalarAbsorbs | jsonpointer/jsonpointer.go:142-156 | tokens after a scalar or a nested null are ignored |
| JsonPointer.ResolveRoot | jsonpointer/jsonpointer.go:134-171 | the root pointer returns a non-null value unchanged; on a null root every pointer fails |
| JsonPointer.ResolveMissingKey | jsonpointer/jsonpointer.go:145-158 | a key missing from an object fails with the pointer text, whatever follows |
| JsonPointer.ResolveBadIndex | jsonpointer/jsonpointer.go:135-154 | on an array, a token `Atoi` rejects, or an index out of range or negative, fails with the pointer text |
| JsonPointer.ResolveNullUnderKey | jsonpointer/jsonpointer.go:145-158 | a null stored under a key is returned without error |
| JsonPointer.ResolveScalarIgnoresRest | jsonpointer/jsonpointer.go:142-158 | evaluating past a scalar returns the scalar |
| JsonPointer.JSONPointer.constructor | jsonpointer/jsonpointer.go:11-12 | a pointer object holding the given tokens |
| JsonPointer.JSONPointer.Len | jsonpointer/jsonpointer.go:48-50 | the length is zero exactly when the text is empty |
| JsonPointer.JSONPointer.Append | jsonpointer/jsonpointer.go:53-56 | returns the receiver; exactly one trailing token is added; the text grows by `/` and the escaped token |
| JsonPointer.JSONPointer.AppendString | jsonpointer/jsonpointer.go:59-62 | as `Append`, for a plain string |
| JsonPointer.JSONPointer.Pop | jsonpointer/jsonpointer.go:65-74 | on the root it returns `""` and changes nothing; otherwise it returns the last token and the pointer loses exactly that token |
| JsonPointer.JSONPointer.Clone | jsonpointer/jsonpointer.go:77-85 | a fresh object with the same tokens |
| JsonPointer.JSONPointer.Get | jsonpointer/jsonpointer.go:134-159 | the cursor loop returns exactly `Resolve` of the tokens |
| JsonPointer.Get | jsonpointer/jsonpointer.go:39-45 | a parse error is returned as is; otherwise the result is `Resolve` of the parsed tokens |
| JsonPointer.AppendToClone | jsonpointer/jsonpointer.go:77-85 | appending to a clone extends the clone and leaves the original unchanged |
| Pointers.TokensLessIrreflexive | pointers.go:20-25 | no pointer is token-wise less than itself |
| Pointers.TokensLessTransitive | pointers.go:20-25 | the token-wise comparison is transitive |
| Pointers.TokensLessConnected | pointers.go:20-25 | of two distinct equal-length pointers one is token-wise less |
| Pointers.ShallowFirst | pointers.go:15-17 | a pointer with fewer tokens is less than a longer one, whatever the tokens, and not the other way round |
| Pointers.FirstDifferenceDecides | pointers.go:20-24 | for equal lengths, the first differing token decides, by byte order |
| Pointers.TextNotNumbers | pointers.go:20-24 | tokens compare as text: `/10` sorts before `/2` |
| Pointers.LessIsStrictTotalOrder | pointers.go:13-26 | `pointers.Less` is irreflexive, transitive and connected on distinct pointers |
| Pointers.Strings | pointers.go:28-34 | one JSON Pointer text per pointer, in order |
| Pointers.StringsDistinct | pointers.go:28-34 | distinct pointers keep distinct header text |
| Pointers.Slashes | pointers.go:36-42 | one text per pointer: its raw tokens joined with `/` |
| Pointers.SlashIsPointerTextWithoutLead | pointers.go:36-42 | with no `~` or `/` in the tokens, slash style is the JSON Pointer text without its leading `/` |
| Pointers.DotNotations | pointers.go:44-50 | when it succeeds, one text per pointer |
| Pointers.DotNotationsFail | pointers.go:44-50 | fails exactly when the dot notation of some pointer fails |
| Pointers.DotNotationsElements | pointers.go:44-50 | element `i` is the dot notation of pointer `i` |
| Sorting.Swap | pointers.go:12 | exchanges two elements in place and leaves the rest, so the multiset is unchanged |
| Sorting.InsertionSort | csv_writer.go:59 | the array ends sorted and is a permutation of its old contents |
| Sorting.SortedUnique | csv_writer.go:59 | two sorted arrangements of the same multiset under a strict total order are equal |
| StrUtil.TrimSpace | jsonpointer/jsonpointer.go:16 | the result is trimmed, and trimmed text is unchanged |
| StrUtil.Split | jsonpointer/jsonpointer.go:25 | one piece per separator plus one; no piece holds the separator |
| StrUtil.SplitJoin | jsonpointer/jsonpointer.go:25 | splitting undoes joining pieces free of the separator |
| StrUtil.JoinSplit | jsonpointer/jsonpointer.go:112 | joining undoes splitting |
| StrUtil.LessIsStrictTotalOrder | flatten.go:19 | byte-wise string `<` is a strict total order |
| StrUtil.Atoi | jsonpointer/token.go:34 | a value `Atoi` accepts lies in the int64 range |
| StrUtil.AtoiItoa | flatten.go:99 | `Atoi` reads back what `Itoa` writes, over the whole int64 range |
| Flattening.ScalarOf | flatten.go:57-79 | a stored leaf gives the JSON value it came from |
| Flattening.Keys | flatten.go:31-37 | every key of the map exactly once |
| Flattening.SortedKeysSorted | flatten.go:21-25 | the reference key order is ascending |
| Flattening.SortedMapKeys | flatten.go:21-25 | a permutation of the object's keys in strictly ascending byte order, equal to the reference order |
| Flattening.Collector.constructor | flatten.go:40 | the shared output map starts empty |
| Flattening.FlattenValue | flatten.go:48-84 | the shared map is extended exactly by the entries of the value; only a null reports an error (`Unknown kind`) |
| Flattening.FlattenChild | flatten.go:86-101 | a child is flattened under a copy of the prefix extended by its own token |
| Flattening.FlattenMap | flatten.go:86-93 | the fields' entries in ascending key order are added; nested errors are dropped |
| Flattening.FlattenSlice | flatten.go:95-101 | the elements' entries by position are added; nested errors are dropped |
| Flattening.Flatten | flatten.go:39-46 | a null fails with `Unknown kind`; any other value gives its entries from the root pointer |
| Flattening.EmptyValuesContributeNothing | flatten.go:80-101 | a null, an empty object and an empty array contribute no entry |
| Flattening.FlatSingleField | flatten.go:86-93 | an object with one leaf field is one entry, under the field's one-token pointer |
| Flattening.EscapedFieldKey | flatten.go:89-91 | an object key `a/b` is a plain token, escaped only in the record key `/a~1b` |
| Flattening.FlatSound | flatten.go:48-101 | every entry comes from a leaf: its key is the text of the leaf's path and its value is that leaf |
| Flattening.FlatFieldsSound | flatten.go:86-93 | soundness for the fields of an object |
| Flattening.FlatElemsSound | flatten.go:95-101 | soundness for the elements of an array |
| Flattening.BranchesApart | flatten.go:86-101 | paths that part at a token render as different text |
| Flattening.SiblingKeysApart | flatten.go:86-101 | no entry of one field or element lands on a key under a sibling |
| Flattening.FlatComplete | flatten.go:48-101 | every leaf yields an entry under its path's text holding that leaf, and no other write overwrites it |
| Flattening.FlatCompleteField | flatten.go:86-93 | completeness for a path into an object |
| Flattening.FlatCompleteElem | flatten.go:95-101 | completeness for a path into an array |
| Flattening.FlatFieldsComplete | flatten.go:86-93 | a leaf under field `k` keeps its entry in the object's map |
| Flattening.FlatElemsComplete | flatten.go:95-101 | a leaf under element `j` keeps its entry under token `Itoa(j)` |
| Flattening.PositionAtoi | flatten.go:99 | `Atoi` reads a position token as its value |
| Flattening.ReachWalks | flatten.go:48-101 | evaluating a leaf's path with `Get` reaches that leaf |
| Flattening.EntriesResolve | flatten.go:48-101 | every record key is the text of a pointer that `Get` resolves to the entry's leaf; trimmed keys parse back to that pointer |
| Conversion.AllObjects | json2csv.go:57-61 | true exactly when every one of the first `n` elements is an object |
| Conversion.IsObjectArray | json2csv.go:47-64 | true exactly for a non-empty array whose elements are all objects (a null element is not) |
| Conversion.JSON2CSV | json2csv.go:10-45 | a non-empty object gives one record and an empty object none; an object array gives one record per element, in order; any other array gives one record, or none when empty; anything else fails with `Unsupported JSON structure.` |
| Conversion.EmptyObjectRecord | json2csv.go:24-29 | an empty object in an object array still gives a record, with no entries |
| Conversion.ArrayRecordKeys | json2csv.go:31-38 | in the record of a non-object array every key starts with an element position |
| CsvWriter.ToRecord | csv_writer.go:139-149 | one cell per key, in key order: the value's text, or `""` when absent |
| CsvWriter.ToTransposedRecord | csv_writer.go:151-162 | the header text, then one cell per record, in record order |
| CsvWriter.GetHeader | csv_writer.go:124-137 | one header text per column; fails exactly in dot-bracket style with a column whose first token is an index; JSON Pointer style and unknown styles give `Strings` |
| CsvWriter.AllKeysMember | csv_writer.go:107-122 | every key of every record is among the collected keys |
| CsvWriter.ParseAll | csv_writer.go:113 | one pointer per key, in order |
| CsvWriter.ParseAllMultiset | csv_writer.go:107-122 | rearranging the keys rearranges their pointers the same way |
| CsvWriter.ColumnsSorted | csv_writer.go:55-60 | the columns are sorted by `pointers.Less`, whatever order the keys were met in |
| CsvWriter.Rows | csv_writer.go:67-72 | one row per record, in record order |
| CsvWriter.TransposedRows | csv_writer.go:92-97 | one row per column, in column order |
| CsvWriter.TableShape | csv_writer.go:54-72 | row mode: a header row and one row per record, each with one cell per column |
| CsvWriter.TransposedShape | csv_writer.go:83-97 | transposed mode: one row per column, each of length records + 1 |
| CsvWriter.TransposedIsTranspose | csv_writer.go:54-105 | the two orientations succeed together, and the transposed table is the row table with rows and columns exchanged |
| CsvWriter.NoRecords | csv_writer.go:54-97 | with no records, row mode writes one empty header row and transposed mode writes nothing |
| CsvWriter.TrailingSpaceKeyNotFound | csv_writer.go:60-68 | a key with trailing white space becomes a column without it, whose cell is empty |
| CsvWriter.AddKey | csv_writer.go:111-118 | a key met before changes nothing; a new key is marked and parsed, or its parse error is returned |
| CsvWriter.AddKeys | csv_writer.go:110-119 | the keys of one record are added; a failure is the parse error of one of its keys |
| CsvWriter.CollectedParse | csv_writer.go:107-122 | every collected key parses |
| CsvWriter.RecordKeyFails | csv_writer.go:113-116 | a key of one record that does not parse makes the whole collection fail |
| CsvWriter.AllPointers | csv_writer.go:107-122 | succeeds exactly when every key parses; an error is the parse error of some key; on success each distinct key is parsed exactly once |
| CsvWriter.SortedColumns | csv_writer.go:55-59 | the collected pointers sorted in place equal the reference column order, independent of map order |
| CsvWriter.Accepted | csv_writer.go:63-71 | how many rows a destination with room left accepts: all of them, or exactly as many as fit |
| CsvWriter.CSVWriter.constructor | csv_writer.go:37-43 | JSON Pointer header style, not transposed, nothing written |
| CsvWriter.CSVWriter.Write | csv_writer.go:63-71 | a row is accepted while there is room; afterwards the write fails and nothing changes |
| CsvWriter.CSVWriter.WriteRows | csv_writer.go:63-71 | rows are written in order up to the first failure, which is returned |
| CsvWriter.CSVWriter.WriteCSV | csv_writer.go:46-51 | the table in the orientation `transpose` selects: key errors and the header panic write nothing; otherwise the rows are emitted up to the first write failure |
| CsvWriter.CSVWriter.WriteRowCSV | csv_writer.go:54-80 | the header row and then one row per record, in row-mode table order |
| CsvWriter.CSVWriter.WriteTransposedCSV | csv_writer.go:83-105 | one row per column, in transposed-table order |
| JsonUtil.EscapePart | json_util.go:87-93 | the escaped text has no `/`, is canonical, and unescapes back to the part; plain text is unchanged |
| JsonUtil.UnescapePart | json_util.go:95-101 | text without `~` is unchanged |
| JsonUtil.EscapeUnescapedPart | json_util.go:87-101 | canonically escaped text is what escaping its unescaped form gives |
| JsonUtil.EscapeMarks | json_util.go:87-93 | escaping marks every part that held a `~` or `/` with a `~` |
| JsonUtil.PartKey | json_util.go:28-34 | a segment becomes an int key exactly when `Atoi` accepts it |
| JsonUtil.Segments | json_util.go:22 | one segment per `/` after the first, plus one; never empty |
| JsonUtil.SegmentKeys | json_util.go:28-34 | one key per segment, in order |
| JsonUtil.Parsed | json_util.go:16-37 | fails exactly when the trimmed text is empty or lacks the leading `/`, with the trimmed text in the error; otherwise one key per `/`, never none |
| JsonUtil.ParseJSONPointer | json_util.go:16-37 | the parsing loop gives exactly `Parsed` |
| JsonUtil.ConvertSegments | json_util.go:27-34 | the conversion loop gives exactly one `PartKey` per segment |
| JsonUtil.ParseSlash | json_util.go:22-27 | `/` parses to one empty string key |
| JsonUtil.PartText | json_util.go:68-82 | an int key is written in decimal; an unescaped string key as itself; escaped text has no `/` |
| JsonUtil.JoinKeys | json_util.go:65-85 | the join loop gives the key texts joined with the separator |
| JsonUtil.PointerText | json_util.go:61-63 | the text starts with `/`, has one `/` per key, and is `/` for no keys |
| JsonUtil.JSONPointer | json_util.go:61-63 | gives exactly `PointerText` |
| JsonUtil.SegmentRoundTrip | json_util.go:28-34 | a canonical segment is written back as itself |
| JsonUtil.PointerTextOfParsed | json_util.go:61-85 | round trip: rendering a parsed, trimmed pointer with canonical segments gives the text back |
| JsonUtil.KeyRoundTrip | json_util.go:28-34 | a string key `Atoi` rejects, or an int in range, reads back from its text |
| JsonUtil.ParsedOfPointerText | json_util.go:16-37 | the other round trip: parsing the text of round-tripping keys gives the keys back |
| JsonUtil.BracketParts | json_util.go:45-56 | fails exactly when the first key is an int; a non-empty key list gives at least one part |
| JsonUtil.DotText | json_util.go:40-58 | fails (the panic) exactly in bracket style with an int first key |
| JsonUtil.DotNotation | json_util.go:40-58 | the loop gives exactly `DotText` |
| JsonUtil.DotStylesAgreeWithoutInts | json_util.go:40-58 | without int keys both notations agree |
| JsonUtil.DotBracketAppendInt | json_util.go:50-51 | in bracket notation a trailing int key extends the last part with `[n]` |
| JsonUtil.DotBracketAppendStr | json_util.go:48-49 | in bracket notation a trailing string key starts a new part after a `.` |

## Left out

- The command-line programs (cmd/json2csv/main.go, main.go): flag parsing, reading input, `json.Unmarshal` and `log.Fatal` exits. Values are taken as already decoded.
- util.go is not part of this model. `valueOf` becomes the closed JSON datatype, and `toString` (`fmt` `%v`) becomes `CsvWriter.CellText` on strings, number text and booleans.
- The `encoding/csv` writer: quoting, line terminators, buffering and `Flush`. A row is a sequence of cell strings. The destination is modelled as accepting a fixed number of rows and refusing every later one, and a refusal is reported at the row that is refused rather than at `Flush`.
- Go `int`, `uint` and `float` leaves reached through reflection (flatten.go:72-77): every number is `Num(text)`, as `json.Number` gives it.
- The `recover` in `Get` becomes a failure result. The `DotNotation(true)` panic also becomes a failure result, not a precondition, because the top-level array dispatch produces pointers that start with an index.
- The `uint` keys of json_util.go (lines 50, 74-75) and the `log.Fatalf` for other key types: keys are strings or ints only.
- The `len(tokens) == 0` and `len(parts) == 0` checks (jsonpointer/jsonpointer.go:26-28, json_util.go:23-25) cannot fire, because `strings.Split` never returns an empty slice. Likewise the error returns after `flatten` in json2csv.go cannot fire on an object or an array. The model has no such branches.
- The iteration order of Go maps is unspecified. `Flattening.Keys` picks an arbitrary order, and the results proved do not depend on it.
- Go's `sort.Sort` algorithm: an in-place insertion sort stands for it. `Sorting.SortedUnique` shows that any correct sort gives the same columns.
- Flattening.FlattenChild, CsvWriter.AddKey, CsvWriter.AddKeys and JsonUtil.ConvertSegments are loop bodies or inner loops of the source factored into methods. The ghost `keys` outputs of the key collection only record the order in which keys were met.
- Flattening.EntriesResolve and Flattening.ReachWalks require every array to have at most 2^63 - 1 elements (`ArraysFitInt`), the bound of a Go `int` index.
- JsonPointer.JSONPointer.Append, JsonPointer.JSONPointer.AppendString and JsonPointer.JSONPointer.Pop keep the tokens in a sequence value. So two Go `JSONPointer` slices that share a backing array, where an `append` on one can overwrite a token of the other, are not modelled. The flattener clones before every append, so it never relies on this.
- StrUtil.Less compares characters (code points). Go compares UTF-8 bytes, and the two orders agree.
