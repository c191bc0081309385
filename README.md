# data-plumber core, modelled in Dafny

data-plumber runs a pipeline of nodes over an in-memory working set of named
tables. Each node is built by a plugin registry from its JSON configuration,
optionally completed from a named template. This project models the substrate
those nodes share and three of the output drivers:

- **Values and rows** (`variant.dfy`, `data.dfy`). `Variant` is the four-kind
  field value: null, string, 64-bit float, 64-bit integer. The model covers its
  conversions to and from serde_json values and MySQL column values, its
  kind-sensitive equality, and its display text, which is the compact JSON text
  of RFC 8259 with strings escaped as section 7 of RFC 8259 describes. A
  `Record` is a map from field name to `Variant`. A `Table` is a name plus an
  ordered sequence of records, and `FindTable` is the first-match lookup.
- **Pipeline state** (`state.dfy`). `State` is a class holding `tables`, `plan`,
  an in-memory results writer and an in-memory input reader. The writer and
  reader are classes over maps and are updated in place. `Make` builds the plan
  entry by entry from the pipeline object.
- **Configuration** (`config.dfy`, `factory.dfy`). `Config::from` supplies the
  checkpoint and template file names with fixed defaults. `read_config_field`
  reads one string field. The `Factory` class covers:
  - its registry of driver constructors;
  - `create_node`: a shallow, config-wins merge of a named template, then the
    driver lookup.
- **`output::asserts`** (`asserts.dfy`). This covers:
  - the recursive assertion language `AssertState`;
  - its parser from one-key JSON documents;
  - `check`, which returns passed, errors and description, and masks the errors
    whenever the assertion passes;
  - the driver, which writes one line per failing assertion to
    `<node>_results.txt`.
- **`output::compare`** (`compare.dfy`). It sorts two tables by the display text
  of an identity field, using a stable sort. It then runs the two-cursor merge
  loop, reporting extra records, mismatched fields and missing fields, and joins
  the lines with `"\n"`.
- **`output::sql-inserts`** (`sql_inserts.dfy`). It builds one
  `insert into T (cols) values (vals);` command per record, with the columns in
  ascending name order, and joins the commands with `"\n"`.

Supporting modules:

- `wrappers.dfy`: `Option`, `Result`, and `Collect`, which stops at the first
  failure.
- `text.dfy`: the code-point order on strings, sorted field names, `join`,
  `split` and decimal integer text.
- `utf8.dfy`: UTF-8 encoding, and strict decoding as `String::from_utf8` does it.
- `json.dfy`: the serde_json `Value` model, its accessors and its compact text.

A Rust panic (`unwrap` on `None`, `expect`, `panic!`, indexing a map with a
missing key) is modelled as an `Err` carrying the panic text. Within a loop the
first failing iteration's panic wins, as it does when the program runs; the one
place where the model may report a different panic text is listed under
"## Left out". The loops of the source are methods with
loop invariants, each proved equal to a recursive specification function. The
properties the source promises are proved as lemmas about those functions.

Three facts about the code that shape the model:

- `compare` writes its "Extra in" lines with a ` - a`, ` - b`, ` - c` or ` - d`
  suffix. The suffix tells which side was extra and whether the other side had
  run out.
- A failing `not` reports `not (<child's description joined with ", ">)` as
  its error, and none of the child's own errors.
- `OutputCompare::from_config` takes a `&Value` rather than the configuration
  map that the `Process` trait declares. It is modelled like the other drivers:
  it reads four string fields of the configuration map.

## Model

| member | source | states |
|---|---|---|
| Wrappers.Collect | src/output/asserts.rs:34-39 | collecting per-item results succeeds exactly when every item does, keeping order and length; otherwise it returns the first failure, and all items before it succeeded |
| Text.SortedNames | src/output/sql_inserts.rs:39 | the field names in strictly ascending code-point order, each name of the set exactly once |
| Text.IntTextRoundTrip | src/state/variant.rs:62 | integer text is an optional `-` followed by digits and reads back as the same integer |
| Text.SplitJoin | src/output/compare.rs:133 | joining items that avoid a one-character separator and splitting at it gives the items back |
| Utf8.DecodeEncode | src/state/variant.rs:38 | strict UTF-8 decoding of the encoding of any string gives that string |
| Utf8.RejectsLoneContinuation | src/state/variant.rs:38 | a lone continuation byte is not UTF-8, so `from_utf8` fails on it |
| Json.Lookup | src/state/factory.rs:9 | a key is found exactly when some entry has it, and the value found is stored under that key |
| Json.Index | src/state/config.rs:11 | indexing a JSON value by a key gives the stored value, or null when the value is not an object or lacks the key |
| Json.EscapePrintable | src/state/variant.rs:68-73 | escaped string text holds no character below U+0020, so no line break |
| Json.UnescapeEscape | src/state/variant.rs:68-73 | JSON string escaping is reversible, so the text determines the string |
| Variants.FromSerdeValue | src/state/variant.rs:16-32 | null, strings, floats and i64 integers convert; an integer outside i64 fails the `as_i64` unwrap; booleans, arrays and objects are unsupported |
| Variants.ToSerdeValue | src/state/variant.rs:58-65 | conversion to JSON fails exactly for NaN and the infinities |
| Variants.SerdeRoundTrip | src/state/variant.rs:16-32 | every value JSON can hold survives the trip to JSON and back |
| Variants.SerdeRoundTripJson | src/state/variant.rs:58-65 | a JSON scalar that converts to a variant converts back to the same JSON |
| Variants.WrapToI64 | src/state/variant.rs:42 | `u as i64` keeps the value modulo 2^64 and is the identity below 2^63 |
| Variants.FromMySqlValue | src/state/variant.rs:34-47 | a MySQL value converts unless it is a date, a time or bytes that are not UTF-8 |
| Variants.MySqlRoundTrip | src/state/variant.rs:34-56 | every variant, floats included, survives the trip to a MySQL value and back |
| Variants.UnsignedWraps | src/state/variant.rs:42 | unsigned column values at or above 2^63 come back negative |
| Variants.EqIsKindSensitive | src/state/variant.rs:76-86 | values of different kinds are never equal; same-kind non-floats are equal exactly when their payloads are; floats are equal exactly when the same and not NaN |
| Variants.EqSymmetric | src/state/variant.rs:76-86 | equality is symmetric |
| Variants.IntIsNotFloat | src/state/variant.rs:76-86 | an integer never equals the float of the same magnitude |
| Variants.Display | src/state/variant.rs:68-73 | display text exists exactly when the value converts to JSON |
| Variants.DisplayForms | src/state/variant.rs:68-73 | null shows as `null`, a string quoted and escaped, an integer in plain decimal |
| Variants.DisplayPrintable | src/state/variant.rs:68-73 | display text never holds a character below U+0020, so never a line break |
| Variants.DisplayInjective | src/state/variant.rs:68-73 | two non-float values with the same display text are the same value |
| Data.FindTable | src/state/data.rs:24-26 | the result is the first table with the name, and `None` exactly when no table has it |
| Data.FindTableAppend | src/state/data.rs:24-26 | tables appended after the first match do not change the result |
| PipelineConfig.ConfigFrom | src/state/config.rs:9-14 | each file name is the string under `config`, or its default when that is absent or not a string; the two are read independently and nothing fails |
| PipelineConfig.NoConfigEntry | src/state/config.rs:11-12 | with no `config` entry both defaults apply |
| PipelineConfig.StateFileOnly | src/state/config.rs:11-12 | a string `state_file` is used while the template file falls back to its default |
| PipelineConfig.NonStringFallsBack | src/state/config.rs:11 | a non-string `state_file` falls back to `state.json` |
| PipelineState.MemoryWriter.constructor | src/state/state.rs:33-37 | a new writer holds no results |
| PipelineState.MemoryWriter.Write | src/state/state.rs:40-42 | `results[name]` becomes the rows and every other name keeps its entry |
| PipelineState.MemoryWriter.TestPeek | src/state/state.rs:43-45 | the rows last written to `name`, or `None` when it was never written |
| PipelineState.MemoryReader.constructor | src/state/state.rs:67-71 | a new reader holds no files |
| PipelineState.MemoryReader.Read | src/state/state.rs:74-76 | the stored lines of `name`; a missing name aborts |
| PipelineState.State.constructor | src/state/state.rs:98-108 | a new state has no tables and an empty plan |
| PipelineState.State.Make | src/state/state.rs:116-127 | the plan is exactly the pipeline object's entries in order, `config` included, with no tables; a pipeline that is not an object aborts |
| PipelineState.State.FindTable | src/state/state.rs:128-130 | a table of the state with that name, and `None` exactly when no table has it; which one is `Data.FindTable`'s first match |
| PipelineState.State.WriteFile | src/state/state.rs:145-147 | delegates to the writer; tables and plan unchanged |
| PipelineState.State.ReadFile | src/state/state.rs:148-150 | the reader's lines for `name`; a missing name aborts |
| Factory.ReadConfigField | src/state/factory.rs:8-10 | the string stored under the key; a missing key or a non-string value aborts |
| Factory.MergeLookup | src/state/factory.rs:69-80 | after the template merge a key the configuration has keeps its value, and any other key has the template's value, copied whole |
| Factory.MergeKeys | src/state/factory.rs:75-79 | the merged keys are exactly the configuration's keys plus the template's |
| Factory.MergeKeepsConfig | src/state/factory.rs:75-79 | the configuration's own entries are kept unchanged (in the model's association list they stay first; no output depends on the order of a `serde_json::Map`), and distinct keys stay distinct |
| Factory.EffectiveConfig | src/state/factory.rs:70-80 | without `template` the configuration is used as is; a string name of an object template gives the merge with that template; an unknown template aborts with `Unknown template`; a name that is not a string, or a template that is not an object, aborts with the unwrap panic |
| Factory.SelectDriver | src/state/factory.rs:81-94 | no `driver` key skips the node; a registered string driver yields its constructor applied to the node name and the merged configuration; an unregistered one aborts with `Unknown driver <d>` |
| Factory.Factory.constructor | src/state/factory.rs:39-54 | a new factory has an empty registry and the given templates |
| Factory.Factory.RegisterProcess | src/state/factory.rs:56-62 | the name now maps to the constructor, replacing any earlier one; other names keep theirs |
| Factory.Factory.CreateNode | src/state/factory.rs:64-95 | the node's configuration is merged with its template in a loop, then the driver is selected; non-object configurations abort |
| Factory.TemplateSuppliesDriver | src/state/factory.rs:69-94 | a template may supply the driver of a node whose configuration has none |
| Factory.ConfigDriverWins | src/state/factory.rs:75-79 | a driver named in the configuration wins over the template's |
| Asserts.Check | src/output/asserts.rs:133-137 | a passing check reports no errors, whatever the assertion |
| Asserts.ParseDocument | src/output/asserts.rs:20-55 | each of the seven one-key documents parses to its constructor, recursing for `not`, `and` and `or` |
| Asserts.ParseUnknownKey | src/output/asserts.rs:53 | any other first key aborts with `unexpected state` |
| Asserts.ParseReadsFirstEntryOnly | src/output/asserts.rs:21 | only the first entry of the document is read |
| Asserts.CheckMeansHolds | src/output/asserts.rs:57-138 | passed agrees with an independent meaning of every assertion: no rows, fewer rows than, exactly so many rows, every record has the field (vacuous on an empty table), negation, all children (true for none), some child (false for none) |
| Asserts.LeafMessages | src/output/asserts.rs:59-89 | each leaf's exact error message when it fails, and the condition under which it fails |
| Asserts.NotOutcome | src/output/asserts.rs:90-103 | `not` passes exactly when its child fails; its error is `not (` plus the child's description joined with `, ` plus `)`; its description is `not` followed by the child's |
| Asserts.FoldPassed | src/output/asserts.rs:104-131 | the fold over children passes iff all of them pass for `and` (so on none), iff some does for `or` (so never on none) |
| Asserts.FoldTexts | src/output/asserts.rs:104-131 | the fold over children concatenates their errors, and their descriptions after the `and`/`or` head, in order |
| Asserts.AndOrErrors | src/output/asserts.rs:104-131 | a failing `and` or `or` reports the children's reported errors in order; `and` passes exactly when all children pass, `or` exactly when some does |
| Asserts.FailureHasErrors | src/output/asserts.rs:57-138 | a failing assertion with no empty `or` inside reports at least one error |
| Asserts.EmptyOrFailsSilently | src/output/asserts.rs:104-116 | `or` over no children fails and reports no error |
| Asserts.MaskingExample | src/output/asserts.rs:90-103 | on a non-empty table `empty` fails with errors, while `not empty` passes and its errors are masked |
| Asserts.FromConfig | src/output/asserts.rs:153-170 | succeeds exactly when `asserts` is an array whose every item parses; the node then keeps its name and its assertions are the items parsed in order; a missing or non-array `asserts` aborts with the unwrap panic, and otherwise the first item that fails to parse gives the error |
| Asserts.FailureLines | src/output/asserts.rs:177-186 | the only way the driver aborts is the `find_table` unwrap |
| Asserts.FailureLinesOk | src/output/asserts.rs:177-178 | the driver aborts exactly when some assertion names a missing table |
| Asserts.FailureLinesCount | src/output/asserts.rs:177-186 | otherwise it produces one line per failing assertion |
| Asserts.FailingCountZero | src/output/asserts.rs:177-186 | there are no lines exactly when every assertion holds |
| Asserts.FailurePropagates | src/output/asserts.rs:178 | once an assertion names a missing table, the whole run aborts |
| Asserts.Run | src/output/asserts.rs:171-195 | the loop computes the lines and writes them to `<node>_results.txt`; other sinks, tables and plan are unchanged, and nothing is written on abort |
| Asserts.CollectFailures | src/output/asserts.rs:175-187 | the loop over the assertions yields exactly the lines of the failing ones, in order, or the abort of the first missing table |
| Asserts.CheckOne | src/output/asserts.rs:177-186 | one iteration: a missing table aborts; otherwise a failing assertion adds its formatted line and a passing one adds nothing |
| Asserts.FailureLinesStep | src/output/asserts.rs:175-187 | the lines for one more assertion are those of the prefix extended by that assertion's outcome |
| Asserts.DebugEscapePlain | src/output/asserts.rs:182-183 | `{:?}` prints a string of printable ASCII characters other than quote and backslash unchanged |
| Asserts.DebugSingle | src/output/asserts.rs:182-183 | a one-message error list prints as `["message"]` |
| Asserts.SingleAssert | src/output/asserts.rs:177-186 | one assertion gives no line when it passes and one `table T failed assert: ...` line when it fails |
| Asserts.EmptyScenario | src/output/asserts.rs:353-455 | `empty` on an empty table writes no line; on a one-row table it fails with `table is not empty` |
| Asserts.NotEmptyScenario | src/output/asserts.rs:90-103 | `not empty` on an empty table fails with `not (to be empty)` |
| Asserts.NotEmptyAndLessThanScenario | src/output/asserts.rs:516-565 | `and [not empty, fewer than 2 rows]` on an empty table fails with only `not (to be empty)`, and the description lists the whole tree |
| Compare.FromConfig | src/output/compare.rs:15-23 | the node is built exactly when the four fields are strings, and it holds them |
| Compare.KeyOf | src/output/compare.rs:31 | the sort key is the display text of the identity field; a missing field or a value with no text aborts |
| Compare.KeyAll | src/output/compare.rs:29-40 | every record gets its key, in order, or the run aborts |
| Compare.InsertSorted | src/output/compare.rs:29-40 | one insertion step keeps the sequence sorted and adds exactly the inserted record |
| Compare.SortByKeySorted | src/output/compare.rs:29-40 | the sort yields records in ascending key order, and they are a permutation of the input |
| Compare.SortByKeyStable | src/output/compare.rs:29-40 | records with equal keys keep their table order |
| Compare.StepsConsume | src/output/compare.rs:43-131 | every record of each side is consumed exactly once and in order, so the loop ends after `|t1| + |t2| - pairs` steps, at most `|t1| + |t2|` |
| Compare.StepsShape | src/output/compare.rs:45-107 | paired records have equal keys, and every step's records come from their own side |
| Compare.MergeJoinExtras | src/output/compare.rs:50-67 | on key-unique sides a record reported as extra has a key the other side lacks |
| Compare.MergeJoinPairs | src/output/compare.rs:68-107 | on key-unique sides every record of either side whose key the other side has is paired |
| Compare.ExtraLines | src/output/compare.rs:50-67 | an extra step emits exactly one `Extra in` line with suffix `a`, `b`, `c` or `d` and no field lines |
| Compare.CompareField | src/output/compare.rs:72-91 | one iteration of the first field loop emits what the field specification says |
| Compare.FirstSide | src/output/compare.rs:71-92 | the first field loop, given the names of `r1` (in ascending order at the call site), emits the lines of those fields in that order |
| Compare.SecondSide | src/output/compare.rs:94-103 | the second field loop emits one `Missing field in input1` line per field of `r2` that `r1` lacks |
| Compare.FieldDifferences | src/output/compare.rs:68-107 | the lines for a pair are the first loop's followed by the second's |
| Compare.FirstSideQuiet | src/output/compare.rs:71-92 | the first loop is silent exactly when every field of `r1` is in `r2` with an equal value |
| Compare.FirstSideOk | src/output/compare.rs:71-92 | the first loop aborts exactly when a mismatched value has no display text |
| Compare.FirstSideLinesAre | src/output/compare.rs:71-92 | the first loop emits a `Missing field in input2` line for each field only `r1` has and a `Mismatch` line for each unequal shared field, nothing else, and no more lines than fields |
| Compare.SecondSideLinesAre | src/output/compare.rs:94-103 | the second loop emits exactly the `Missing field in input1` lines for fields only `r2` has |
| Compare.PairLinesEmpty | src/output/compare.rs:68-107 | a pair emits no line exactly when both records have the same field names with equal values |
| Compare.PairLinesOk | src/output/compare.rs:68-107 | a pair of records with the same key aborts exactly when a mismatched value has no JSON text |
| Compare.PairLinesAre | src/output/compare.rs:68-107 | otherwise its lines include a `Missing field` line for every field on one side only and a `Mismatch` line for every differing field |
| Compare.PairLinesOnly | src/output/compare.rs:68-107 | and a pair has no other line: each is the `Missing field` line of a field on one side only or the `Mismatch` line of a differing field |
| Compare.PairLinesCount | src/output/compare.rs:68-107 | a pair has exactly one line per field of `r1` that `r2` lacks or holds differently, plus one per field only `r2` has |
| Compare.FirstSideCount | src/output/compare.rs:71-92 | over distinct names, the first loop emits exactly one line per field missing from `r2` or differing there |
| Compare.SecondSideCount | src/output/compare.rs:94-103 | over distinct names, the second loop emits exactly one line per field missing from `r1` |
| Compare.Merge | src/output/compare.rs:43-131 | the merge loop with two cursors produces the lines its step specification renders |
| Compare.MergeStep | src/output/compare.rs:44-127 | one iteration compares the keys under the two cursors, emits the lines of the step the specification takes first, and advances past exactly the records that step consumes |
| Compare.Run | src/output/compare.rs:24-134 | the text written is the lines joined with `"\n"`; missing tables and records without a key abort |
| Compare.CompareSelf | src/output/compare.rs:24-134 | comparing a table with itself (no NaN, keys present) writes the empty text |
| Compare.MergeOneAgainstTwo | src/output/compare.rs:43-131 | one record against itself plus a larger one gives a pair step, then an extra step for side 2 after side 1 ran out |
| Compare.ExtraInSecondScenario | src/output/compare.rs:119-127 | `{id:1}` against `{id:1},{id:2}` writes the single line `Extra in input2: 2 - d` |
| SqlInserts.FromConfig | src/output/sql_inserts.rs:26-33 | the node is built exactly when `input`, `path` and `table-name` are strings, and it holds them |
| SqlInserts.JoinItemsSplit | src/output/sql_inserts.rs:7-15 | `join` separates with the given joiner, `,` by default: splitting its result at the joiner gives the items back |
| SqlInserts.InsertCommand | src/output/sql_inserts.rs:39-45 | a record's command exists exactly when every value has display text |
| SqlInserts.Commands | src/output/sql_inserts.rs:37-46 | one command per record, in record order, or the first record's failure |
| SqlInserts.Run | src/output/sql_inserts.rs:34-50 | the loop builds the commands and returns them joined with `"\n"`; a missing table aborts |
| SqlInserts.CommandShape | src/output/sql_inserts.rs:39-45 | the command is `insert into T (cols) values (vals);`, where cols are the sorted field names in backticks and vals their display texts in the same order |
| SqlInserts.ColumnsReadBack | src/output/sql_inserts.rs:40 | the column list splits back into the backticked names, so there are as many columns as fields |
| SqlInserts.CommandSingleLine | src/output/sql_inserts.rs:42-45 | a command holds no line break when the table and field names hold none |
| SqlInserts.OutputLines | src/output/sql_inserts.rs:47 | splitting the output at line breaks gives back the commands, one per record, with no trailing line |

## Left out

- Compare.Run, Compare.KeyOf: a record's key is the display text of its
  identity value, and every finite float that is not a whole number below
  10^16 displays as the same stand-in text, and `-0.0` as `0.0` (see
  Variants.Display below). So records whose identity values are distinct such
  floats get equal keys: the
  model sorts them as equal (keeping table order) and pairs them, writing
  `Mismatch` lines where the program orders them by their real text and
  writes `Extra in` lines. For identity values of any other kind the keys, the
  order and the written text are the program's.
- Compare.KeyAll, Compare.Run: the model keys every record of the first table
  in table order, then every record of the second. The program computes keys
  while `sort_by` compares records, in the order the sort chooses, and never
  for a table with a single record. When several records fail to key in
  different ways (a missing identity field, or a value with no JSON text), the
  model reports the first in table order and the program the first its sort or
  loop reaches. Whether the run aborts, and that nothing is written, is the
  same; only the panic text may differ.
- Variants.Display: the text of a finite float that is not a whole number below
  10^16 is a stand-in, not the shortest round-trip text serde_json prints. The
  sign of zero is not kept, so `-0.0` is not distinguished from `0.0`.
- Asserts.DebugEscape: Rust's `{:?}` also escapes non-printable characters
  outside ASCII (such as U+0080 to U+009F) and grapheme extenders as `\u{..}`.
  The model escapes quotes, backslashes and every ASCII control character, and
  passes every non-ASCII character through unchanged.
- Compare.FirstSide, Compare.SecondSide: the program visits a record's fields in
  `HashMap` iteration order, which is unspecified. The model visits them in
  ascending name order. The set of lines for a pair is what the lemmas state;
  their order within the pair is not the program's.
- Panic messages are shortened to their leading text (for example
  `called Option::unwrap() on a None value`, `no entry found for key`,
  `Unknown template`). serde_json's error details are not modelled.
- `FileWriter`, `FileReader` and `std::fs::write`: file contents are modelled as
  the returned text or as the in-memory writer's entry.
- `State::load_or_make`, `State::save` and `State::load`: they persist the whole
  state through serde; that is a foreign library.
- `Factory::new` reading the template file: the templates are a constructor
  parameter.
- The `register_process!` macro and `Process::register`: constructors are
  opaque tags registered by name.
- `println!` and `dbg!` output.
- src/main.rs, src/state/mod.rs, src/input/mod.rs, src/input/mysql.rs,
  src/input/json.rs, src/output/json.rs and src/output/rabbitmq.rs are not part
  of this model. They hold CLI wiring, stale type definitions, database and file
  reads, serde pretty-printing and a network client. The inputs' only logic is
  the per-value conversion modelled in `variant.dfy`. No executor loop consumes
  the plan in the source, so none is modelled beyond `State::make`.
- Variants.FromMySqlValue: the crate's date and time values are an error, as in
  the source. Their fields are not validated.
