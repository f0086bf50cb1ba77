# CSV block parser (dmlc-core `src/data/csv_parser.h`)

This project models the CSV parser of dmlc-core's data layer in Dafny.
The parser has two parts:

- **Construction.** `CSVParserParam::ExtractLabelColumnIndices` reads the
  `label_column` option, a comma-separated list of column numbers. It gives
  each accepted column a dense output label slot and sets `label_count`.
  The `CSVParser` constructor then requires the format to be `"csv"` and
  the weight column not to be a label column.
- **`CSVParser::ParseBlock`.** It turns a block of text into a row block.
  Each row gets `label_count` labels, an optional instance weight (float
  parsers only) and its features as (index, value) pairs in CSR form:
  `offset`, `index`, `value`.

Modules, in dependency order:

- `Results` (`results.dfy`): the `Option` and `Result` wrappers.
- `NumParse` (`num_parse.dfy`): the numeric conversion of a field.
  - `ParseNum` stands for `strtof` / `strtoll`: it skips C white space, takes an optional sign and a run of decimal digits, and reports where it stopped.
  - `Convert` stands for the cast to the element type: 64-bit saturation for `strtoll`, then 32-bit wrap-around for `int32_t`.
- `TextScan` (`text_scan.dfy`): cursor scans over the block: find a character, skip line terminators, find a line end, count line starts.
- `LabelColumns` (`label_columns.dfy`):
  - The `label_column` list and its `std::getline` splitting.
  - The per-entry decision (`Classify`) and the extraction loop as a fold (`ExtractSpec`).
  - The class `CsvParserParam`, whose method `ExtractLabelColumnIndices` updates the map and `label_count` in place.
- `RowBlock` (`row_block.dfy`): the row block as a value (`Block`) and the container class `RowBlockContainer` that `ParseBlock` fills.
- `CsvConfig` (`csv_config.dfy`):
  - The state of a constructed parser (`ParserConfig`) and its validity invariant.
  - `ParserSpec`, which gives the outcome of construction.
- `CsvRows` (`csv_rows.dfy`): one line. `FieldStep` stores one field. `LineFrom` walks the fields of a line, following the source's cursor rules, and gives the row or `None` where the source stops with `LOG(FATAL)`.
- `CsvBlock` (`csv_block.dfy`): the whole block. `ParseLines` is line after line; `ParseBlockSpec` adds the final weight check.
- `CsvParser` (`csv_parser.dfy`): the imperative code.
  - `NewCsvParser` (the constructor).
  - `ParseBlock` with its loops over the block, split into the methods `ParseLine`, `ParseFields`, `StoreField`, `ScanToDelimiter`, `FindLineEnd` and `SkipLineBreaks`.
  - Each method is proved against the specification functions above.
- `CsvConfigProperties`, `CsvRowProperties`, `CsvBlockProperties`: lemmas about the specification functions.

Fatal `CHECK` and `LOG(FATAL)` outcomes are modelled as error values:

- `ConfigError` for construction.
- `ParseError` for `ParseBlock`.

A NaN weight ("no weight on this row") is modelled as `None`.

### The delimiter check

The fatal "delimiter not found" check (`csv_parser.h:175-183`) can fire
after any field of a line. It fires when the delimiter scan reaches the
line end while `idx` is still 0, that is, when no feature column has been
seen on the line yet. So:

- A line holding a single feature value and no delimiter parses fine. `LineWithoutDelimiter` proves that it aborts only when column 0 is a label or weight column.
- A line whose columns are all label or weight columns aborts exactly when the delimiter scan after its last field reaches the line end. A trailing delimiter saves it when the last field's conversion does not run past that delimiter: "5," and "5" followed by a tab both parse, because the conversion of "5" stops at the delimiter. It does not save it when the last field is blank, the delimiter is white space and the next line starts with a number: in "5", tab, tab, newline, "7" with columns 0 and 1 as labels, the blank second field's conversion skips the tab and the newline and reads the "7", its end is clamped to the line end, and the line aborts. `TrailingTabAfterValue`, `TrailingTabAfterBlank` and `TrailingTabAtBlockEnd` work these cases through, and `LineRowAborts` states the exact rule for every delimiter.

The weight check at the end of `ParseBlock` (`csv_parser.h:198`) can fail on
real input: a float parser's block where only some lines reach the weight
column. `WeightMismatch` states exactly when. The other three checks
(`csv_parser.h:195-197`) always hold; `ParseBlock` proves them with
assertions.

## Model

| member | source | states |
|---|---|---|
| NumParse.ParseNum | src/data/csv_parser.h:149-155 | the conversion ends within the text; if it consumed nothing its value is 0; otherwise it ends right after a digit that no digit follows; its value is stated by ParseNumConverts and ParseNumNoDigits |
| NumParse.Saturate64 | src/data/csv_parser.h:152-155 | the result lies in the int64 range, equals the input inside it and clamps to the nearer bound outside it |
| NumParse.Wrap32 | src/data/csv_parser.h:152 | the result lies in the int32 range, is congruent to the input modulo 2^32, and equals the input when the input fits |
| NumParse.Convert | src/data/csv_parser.h:148-159 | a float element keeps the converted value; int32 and int64 results lie in their ranges and a value that fits is stored unchanged; outside the int64 range an int64 element holds the nearer bound, and an int32 element holds the low 32 bits of it (-1 above, 0 below), congruent to the value modulo 2^32 inside it |
| NumParse.DigitStartConverts | src/data/csv_parser.h:149-155 | a field that starts with a digit always converts at least one character |
| NumParse.PunctuationConvertsNothing | src/data/csv_parser.h:149-155 | a field that starts with a character that is neither white space, a sign nor a digit (a delimiter such as ',') converts nothing: value 0, end at the start |
| NumParse.EndConvertsNothing | src/data/csv_parser.h:149-155 | at the end of the text nothing is converted |
| NumParse.ParseNumConverts | src/data/csv_parser.h:149-155 | text that is white space, an optional sign and a run of digits converts to the signed decimal value of the digits and ends right after the last digit |
| NumParse.ParseNumNoDigits | src/data/csv_parser.h:149-155 | when no digit follows the white space and the optional sign, nothing is converted: value 0, end at the start |
| NumParse.ParseNumConsumes | src/data/csv_parser.h:149-155 | a conversion consumes only white space, a sign and digits |
| TextScan.Find | src/data/csv_parser.h:177 | the delimiter scan stops at the first occurrence of the character in range, or at the range end |
| TextScan.FindUnique | src/data/csv_parser.h:177 | any position with the first-occurrence property is the one the scan returns |
| TextScan.SkipNewlines | src/data/csv_parser.h:131 | the skip stops at the first character that is not a line terminator, having passed only terminators |
| TextScan.LineEnd | src/data/csv_parser.h:136 | the line end is the first line terminator at or after the start, or the block end |
| LabelColumns.SplitFrom | src/data/csv_parser.h:47-49 | getline yields entries exactly when text remains after the cursor |
| LabelColumns.SplitFromNoDelimiter | src/data/csv_parser.h:49 | no extracted entry contains the list delimiter |
| LabelColumns.SplitFromJoin | src/data/csv_parser.h:47-49 | the entries from a position on, joined with commas, give back the rest of the text exactly when it does not end with a comma, and the rest minus its final comma when it does |
| LabelColumns.SplitJoin | src/data/csv_parser.h:47-49 | splitting the whole label_column option and joining the entries gives the option back, without its final comma when it ends with one |
| LabelColumns.Stoi | src/data/csv_parser.h:53-54 | std::stoi succeeds only after consuming at least one character, with an int32 value; on an entry that starts with a digit or a sign it succeeds exactly when a digit follows the optional sign and the signed digit run fits an int, and then stops right after that run with its value |
| LabelColumns.EntryConversion | src/data/csv_parser.h:53-54 | an entry that starts with a digit or a sign converts to its signed digit run, or to nothing when no digit follows the sign |
| LabelColumns.Classify | src/data/csv_parser.h:50-80 | an accepted entry starts with a digit or a sign, std::stoi converts all of it to the accepted column, which is non-negative, fits an int and is new to the map; an entry converted in full to a negative value is skipped; the extraction throws exactly on an entry that starts like a number and that std::stoi rejects |
| LabelColumns.AcceptedIffSpelled | src/data/csv_parser.h:51-59 | an entry is accepted exactly when it spells a new column as an optional sign and digits with a non-negative value that fits an int ("+7", "-0" included, "-1" not), and it is accepted as that column |
| LabelColumns.Step | src/data/csv_parser.h:50-81 | one pass of the getline loop: it fails exactly on an entry that starts like a number and that std::stoi rejects, with that entry as the error; SkippedEntryTakesNoSlot, DecimalEntryAccepted and StepKeepsDenseSlots state what the other entries do |
| LabelColumns.Fold | src/data/csv_parser.h:49-81 | the getline loop over all entries; FoldAcceptsFirstSeen, FoldKeepsDenseSlots, FoldSucceedsIffConvertible and FoldFailsAtFirstUnconvertible state which columns it keeps, their slots, and exactly when and with which entry it fails |
| LabelColumns.FoldSucceedsIffConvertible | src/data/csv_parser.h:49-81 | the loop succeeds exactly when std::stoi throws on no entry |
| LabelColumns.FoldFailsAtFirstUnconvertible | src/data/csv_parser.h:53-54 | when std::stoi throws on some entry, the loop fails with the first such entry |
| LabelColumns.ExtractSpec | src/data/csv_parser.h:44-85 | the whole extraction from the label_column option; ExtractKeepsFirstSeen, ExtractDenseSlots, ExtractFailsOnFirstUnconvertible and DefaultLabelColumn state its result and when it fails |
| LabelColumns.ExtractFailsOnFirstUnconvertible | src/data/csv_parser.h:44-81 | the extraction fails exactly when std::stoi throws on some entry of the list, and then with the first such entry |
| LabelColumns.LabelCountFor | src/data/csv_parser.h:83 | label_count is the number of label columns when there is at least one, and 1 when there is none |
| LabelColumns.FoldKeepsDenseSlots | src/data/csv_parser.h:57-59 | the accepted columns map one-to-one onto slots 0 .. n-1 in acceptance order, with non-negative keys |
| LabelColumns.ExtractDenseSlots | src/data/csv_parser.h:44-85 | a successful extraction from an empty map assigns dense, distinct slots to non-negative columns |
| LabelColumns.FoldAcceptsFirstSeen | src/data/csv_parser.h:49-81 | a successful loop appends exactly the spelled columns not accepted before, in the order of their first occurrence in the list |
| LabelColumns.ExtractKeepsFirstSeen | src/data/csv_parser.h:44-81 | a successful extraction keeps the columns the list spells, each at its first occurrence, and maps the i-th of them to slot i |
| LabelColumns.FirstSeenExample | src/data/csv_parser.h:56-66 | for the entries of "2,0,2,-1,abc,0" the kept columns are 2 then 0: repeats, the negative entry and the non-numeric one are skipped |
| LabelColumns.SkippedEntryTakesNoSlot | src/data/csv_parser.h:60-80 | a skipped entry adds its warning and changes neither the map nor the next slot |
| LabelColumns.DecimalEntryAccepted | src/data/csv_parser.h:52-59 | an unsigned decimal entry that fits an int and names a new column is accepted as that column |
| LabelColumns.GetLine | src/data/csv_parser.h:49 | one getline call returns the first remaining entry and moves the cursor past it and its delimiter |
| LabelColumns.CsvParserParam.constructor | src/data/csv_parser.h:24-43 | the options are stored and the label map starts empty |
| LabelColumns.CsvParserParam.ExtractLabelColumnIndices | src/data/csv_parser.h:44-85 | the map, label_count and the warnings are those of the extraction fold; it succeeds exactly when std::stoi throws on no entry, and otherwise returns the extraction's error; the options are unchanged |
| CsvConfig.DelimiterChar | src/data/csv_parser.h:177 | the field separator is the first character of the delimiter option, or NUL for an empty option |
| CsvConfig.IsFeatureColumn | src/data/csv_parser.h:161-167 | a column whose field goes to the features: neither a label column nor a float parser's weight column; LineRowFeatures and LineRowFeatureValues state what such fields add |
| CsvConfig.ParserSpec | src/data/csv_parser.h:99-109 | the outcome of construction; ConstructionFailures, ConstructedParserIsValid, NegativeWeightNeverOverlaps and DefaultLabelColumn state its properties |
| CsvConfigProperties.ConstructedParserIsValid | src/data/csv_parser.h:99-109 | a constructed parser passed the format check and holds the extracted label map and the options' weight column, delimiter and element type; its label columns are the columns the list spells, the i-th in slot i, with slots 0 .. n-1 without gaps or repeats, label_count n (at least one), and the weight column not a label column |
| CsvConfigProperties.ConstructionFailures | src/data/csv_parser.h:104-108 | an extraction error is the outcome; otherwise a format other than "csv" fails first, then construction fails with the overlap error exactly when the list spells the weight column; construction succeeds exactly when none of these holds |
| CsvConfigProperties.NegativeWeightNeverOverlaps | src/data/csv_parser.h:106-108 | a negative weight column, the default -1, never collides with a label column |
| CsvConfigProperties.DefaultLabelColumn | src/data/csv_parser.h:44-85 | with an empty label_column there are no label columns and one label slot; only the format check can fail |
| CsvConfigProperties.FoldFailsOnUnconvertibleEntry | src/data/csv_parser.h:54 | extraction fails only on an entry of the list that std::stoi cannot convert (FoldFailsAtFirstUnconvertible is the converse) |
| RowBlock.EmptyBlock | src/data/csv_parser.h:125 | a cleared block has the single offset 0 and empty vectors |
| RowBlock.RowBlockContainer.Clear | src/data/csv_parser.h:125 | clearing leaves the empty block and keeps label_count |
| CsvRows.FieldStop | src/data/csv_parser.h:175-177 | the delimiter scan starts at the conversion end clamped to the line end and stops at the first delimiter from there, or at the line end |
| CsvRows.NextField | src/data/csv_parser.h:175-183 | the next field starts strictly after the current one and within the line, one past the first delimiter after the conversion end, or at the line end |
| CsvRowProperties.NextFieldAfterFirstDelimiter | src/data/csv_parser.h:175-183 | for a delimiter that is not white space, a sign or a digit, the next field starts one past the first delimiter at or after the field start, or at the line end |
| CsvRowProperties.FieldAtNext | src/data/csv_parser.h:144-183 | field k + 1 starts where the field after field k does, so with such a delimiter each field starts one past the next delimiter |
| CsvRows.EmptyRow | src/data/csv_parser.h:139-142 | each line starts with label_count zero labels, no weight, idx 0 and no features |
| CsvRows.FieldStep | src/data/csv_parser.h:161-174 | storing a field keeps the label buffer at label_count slots; the values it stores are stated by LineFromLabel, LineFromWeightValue and LineFromFeatures |
| CsvRows.LineFrom | src/data/csv_parser.h:144-184 | a finished line keeps label_count labels; LineFromLabel, LineFromWeightValue and LineFromFeatures state its label, weight and feature values |
| CsvBlock.CloseRow | src/data/csv_parser.h:189-193 | closing a row adds exactly one row to the block; CloseRowContents states what that row holds |
| CsvBlockProperties.CloseRowContents | src/data/csv_parser.h:189-193 | closing a row in a well-formed block keeps every vector of the block as a prefix; the new last row holds the row's label_count labels at labels[n*label_count ..] and its feature pairs between the old and new last offsets, the new offset being index.size(); the row's weight is appended when it has one |
| CsvBlock.LineStop | src/data/csv_parser.h:135-136 | the line end lies after the line's first character and within the block |
| CsvBlock.LineRow | src/data/csv_parser.h:135-184 | a parsed line has label_count labels; LineRowLabels, LineRowWeightValue and LineRowFeatureValues state its label, weight and feature values |
| CsvBlock.ParseLines | src/data/csv_parser.h:131-194 | the line loop; ParseLinesKeepsWellFormed, ParseLinesCountsLines, ParseLinesOutcome, ParseLinesContents, ParseLinesWithoutWeights and ParseLinesAllWeighted state its properties |
| CsvBlock.WeightsConsistent | src/data/csv_parser.h:198 | the weight check: the weight vector is empty or has one entry per row; WeightMismatch and EveryLineWeighted state when it holds |
| CsvBlock.ParseBlockSpec | src/data/csv_parser.h:122-199 | the block ParseBlock produces or its fatal error; ParseBlockChecks, BlockRowsAreLines, ParseBlockOutcome, BlockContents, BlockRowOfLine and WeightMismatch state its properties |
| CsvParser.NewCsvParser | src/data/csv_parser.h:99-109 | construction gives the outcome ParserSpec defines: the extraction error, then the format check, then the label/weight overlap check; on success it also returns the extraction warnings |
| CsvParser.StoreField | src/data/csv_parser.h:148-174 | converting and storing one field updates the label buffer, weight, idx and features as FieldStep does, and leaves the rest of the container alone |
| CsvParser.ParseFields | src/data/csv_parser.h:138-184 | the field loop aborts exactly when LineRow is None; otherwise it leaves the row's labels and weight and appends the row's features |
| CsvParser.ScanToDelimiter | src/data/csv_parser.h:177 | the scan loop stops where Find does |
| CsvParser.SkipLineBreaks | src/data/csv_parser.h:186 | the skip loop stops where SkipNewlines does |
| CsvParser.FindLineEnd | src/data/csv_parser.h:135-136 | the line-end loop stops where LineStop does |
| CsvParser.ParseLine | src/data/csv_parser.h:135-193 | one line aborts exactly when LineRow is None; otherwise the container gains exactly CloseRow of that row, and the next line starts after the terminators |
| CsvParser.ParseBlock | src/data/csv_parser.h:122-199 | the container ends holding exactly ParseBlockSpec's block, or the method reports ParseBlockSpec's fatal error; label_count is set from the parser |
| CsvRowProperties.FieldCount | src/data/csv_parser.h:144-184 | a line position has no fields left exactly at the line end |
| CsvRowProperties.LineFromCountsFeatures | src/data/csv_parser.h:164-173 | idx advances exactly once per feature column the line reaches |
| CsvRowProperties.LineFromAborts | src/data/csv_parser.h:178-182 | the rest of a line aborts exactly when no feature column is seen and the scan after the last field reaches the line end |
| CsvRowProperties.LineFromKeepsFeaturesOrdered | src/data/csv_parser.h:168-170 | feature indices stay strictly increasing and below idx |
| CsvRowProperties.LineFromWeight | src/data/csv_parser.h:164-166 | the weight is set exactly when it was already set, or the parser reads floats and the weight column is one of the columns left |
| CsvRowProperties.LineFromKeepsUnownedSlot | src/data/csv_parser.h:161-163 | a label slot that none of the remaining label columns owns keeps its value |
| CsvRowProperties.LineFields | src/data/csv_parser.h:144-184 | every line has at least one field |
| CsvRowProperties.LineRowFeatures | src/data/csv_parser.h:138-184 | a parsed line has one idx per feature column, and its features are ordered |
| CsvRowProperties.LineRowAborts | src/data/csv_parser.h:178-182 | a line aborts exactly when none of its columns is a feature column and the scan after its last field reaches the line end |
| CsvRowProperties.FeatureFirstNeverAborts | src/data/csv_parser.h:178-182 | a line whose column 0 is a feature column never aborts |
| CsvRowProperties.LineWithoutDelimiter | src/data/csv_parser.h:175-182 | a line without the delimiter is one field, and it aborts exactly when column 0 is a label or weight column |
| CsvRowProperties.TrailingTabAfterValue | src/data/csv_parser.h:149-183 | with a tab delimiter, a label-only line "5" followed by a tab parses: the conversion stops at the tab and the scan finds it |
| CsvRowProperties.TrailingTabAfterBlank | src/data/csv_parser.h:149-183 | "5", tab, tab with columns 0 and 1 as labels aborts when the next line starts with "7": the blank field's conversion runs to the clamped line end |
| CsvRowProperties.TrailingTabAtBlockEnd | src/data/csv_parser.h:149-183 | the same line parses at the block end, where the blank field converts nothing |
| CsvRowProperties.LineRowWeight | src/data/csv_parser.h:164-166 | a parsed line carries a weight exactly when the parser reads floats and the weight column is one of the line's columns |
| CsvRowProperties.LineRowUnownedSlotIsZero | src/data/csv_parser.h:141 | a label slot that none of the line's label columns owns stays 0 |
| CsvRowProperties.LineFromLabel | src/data/csv_parser.h:161-163 | the field of each label column among the remaining fields is stored, converted, in that column's label slot |
| CsvRowProperties.LineFromWeightValue | src/data/csv_parser.h:164-166 | a float parser's weight is the converted field of the weight column when the remaining fields include it; otherwise the weight so far stays |
| CsvRowProperties.LineFromFeatures | src/data/csv_parser.h:167-173 | the old features stay in front, one pair is appended per remaining feature field whose conversion consumed a character, and each pair holds the field's feature position and converted value |
| CsvRowProperties.LineRowLabels | src/data/csv_parser.h:139-174 | in a parsed line, the label slot of each label column holds that column's converted field |
| CsvRowProperties.LineRowWeightValue | src/data/csv_parser.h:142-166 | a parsed line's weight is the converted weight field for a float parser whose weight column the line reaches, and no weight otherwise |
| CsvRowProperties.LineRowFeatureValues | src/data/csv_parser.h:167-173 | a parsed line has exactly one feature per feature field whose conversion consumed a character, and none for an empty or non-numeric one; the pair of field k holds the number of feature columns before k and the field's converted value |
| CsvBlockProperties.EmptyBlockWellFormed | src/data/csv_parser.h:125 | the cleared container is a well-formed CSR block |
| CsvBlockProperties.CloseRowKeepsWellFormed | src/data/csv_parser.h:189-193 | closing a row with label_count labels and ordered features keeps the block well formed |
| CsvBlockProperties.ParseLinesKeepsWellFormed | src/data/csv_parser.h:132-194 | the line loop keeps the block well formed |
| CsvBlockProperties.ParseBlockChecks | src/data/csv_parser.h:195-198 | a successful parse is well formed and passes all four final checks |
| CsvBlockProperties.WeightMismatch | src/data/csv_parser.h:198 | the weight check fails exactly when the lines parse but only some rows carry a weight |
| CsvBlockProperties.ParseLinesOutcome | src/data/csv_parser.h:131-194 | the line loop succeeds exactly when no line from its start on aborts; when it fails, its only error is DelimiterNotFound at the first line that aborts, every earlier line having parsed |
| CsvBlockProperties.LineStartsFrom | src/data/csv_parser.h:131-187 | the positions where lines start, in order: each holds a character that is not a line terminator and follows the block start or a terminator |
| CsvBlockProperties.LineRowsAt | src/data/csv_parser.h:135-184 | the j-th row of the lines' row list is the row the j-th line parses to |
| CsvBlockProperties.ParseLinesContents | src/data/csv_parser.h:131-194 | when the line loop succeeds, every line from its start on parses, the block keeps what it held, gains one row per line in line order with that line's labels and feature pairs, and its weight vector gains the lines' weights in order |
| CsvBlockProperties.BlockContents | src/data/csv_parser.h:122-199 | a successful parse has one row per line of the block, in line order: row j holds the j-th line's labels and feature pairs, and the weight vector is the lines' weights in order, lines without a weight adding none |
| CsvBlockProperties.BlockRowOfLine | src/data/csv_parser.h:189-193 | in a successful parse, labels[j*label_count .. (j+1)*label_count] are the label slots of the block's j-th line, and index/value between offset[j] and offset[j+1] are that line's feature pairs |
| CsvBlockProperties.ParseBlockOutcome | src/data/csv_parser.h:122-199 | a successful parse means no line of the block aborts; when no line aborts only the weight check can fail the parse; a DelimiterNotFound error names the first line of the block that aborts |
| CsvBlockProperties.ParseLinesCountsLines | src/data/csv_parser.h:132-194 | the line loop adds one row per line start it passes |
| CsvBlockProperties.BlockRowsAreLines | src/data/csv_parser.h:131-194 | a successful parse has one row per line; runs of terminators, leading ones included, add no rows |
| CsvBlockProperties.ParseLinesWithoutWeights | src/data/csv_parser.h:164-166 | an integer parser, or a negative weight column, adds no weights in the line loop |
| CsvBlockProperties.BlockWithoutWeights | src/data/csv_parser.h:190-192 | an integer parser, or a negative weight column, yields an empty weight vector |
| CsvBlockProperties.ParseLinesAllWeighted | src/data/csv_parser.h:164-192 | when every line reaches a float parser's weight column, each row adds exactly one weight |
| CsvBlockProperties.EveryLineWeighted | src/data/csv_parser.h:198 | when every line reaches a float parser's weight column, the weight check passes with one weight per row |

## Left out

- The stream and thread plumbing: `TextParserBase`, `InputSplit`, `nthread`, and how blocks are cut from the input. `ParseBlock` receives the block as a sequence of characters. `text_parser.h` is not part of this model.
- `IgnoreUTF8BOM` (`csv_parser.h:134`): a byte-order mark at a line start is not skipped; it is read as ordinary text.
- `Parameter<...>::Init(args)`: parsing the option map and its defaults. The constructor takes the four options as values.
- Float conversion. `strtof` is modelled on decimal integers: optional sign and digits. Left out: fractions, exponents, `inf`/`nan`, hexadecimal floats, and rounding to 32-bit floats. A weight is therefore never NaN, and every weight read is kept.
- `strtoll` with base 0: `0x` and leading-`0` octal prefixes are read as decimal.
- The `IndexType` width of `idx`: feature indices are unbounded naturals, with no wrap-around.
- Reads past the block end: `strtof` and `*p` at `end` may read beyond the block in the source. The model never looks past the block, and a conversion stops at the block end.
- Warning text and logging. Each skipped label entry yields a `Warning` value instead of a log line.
- A `DType` other than the three supported types (`LOG(FATAL)` at `csv_parser.h:158`): `NumKind` has only those three.
- `RowBlockContainer` members the parser does not touch, and the container's own methods besides `Clear`. `row_block.h` is not part of this model.
