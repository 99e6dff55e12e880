# data_reader in Dafny

A model of the core of `data_reader`, a Python package that reads large text files quickly. The user describes the file's fields once with `BuildDataDictionary.add_field`. From that data dictionary, `create_reader` writes a Python module whose `reader(params)` does the following:

- walks the file line by line (DELIM) or record by record (FLAT);
- converts and checks every field against its type, bounds and table of legal values;
- applies the field's FIX/DROP/FATAL policy;
- passes each kept row to optional user hooks;
- returns the rows as a list, or writes them to delimited files. Output can be split into numbered files after a row count and partitioned into `name=value` sub-directories by a field's value.

`multi_process` cuts the file into byte ranges, one per worker process. `PopulateCBSAData` is a ready-made hook that adds CBSA codes and names looked up by zip code.

Files and modules:

| file | module | what it holds |
|---|---|---|
| `common.dfy` | `Common` | `Option`/`Result` and the Python string operations the source relies on: `upper`, `strip`, `find`, `rfind`, `split`, `replace`, `int()` of text with optional `_` digit grouping, `str()` of a natural number |
| `calendar.dfy` | `Calendar` | proleptic Gregorian dates as `datetime.date` builds them, and `to_end_of_month` |
| `values.dfy` | `Values` | the decoded field value; Python's `<` and `==` on such values, where an `int` equals the `float` of the same number; a total order for sorted legal-value tables with sort and `np.searchsorted`; the key a value files under in a `dict`; the ordered record `fx_out` |
| `schema.dfy` | `Schema` | `__check_type`, the `DATE(...)` literal validator, the accepted date formats, and the class `DataDictionaryBuilder` with `add_field` |
| `decode.dfy` | `Decode` | the per-field code that `create_reader` emits: trimming, type conversion, zip padding, the eight date formats with their `E`/`B` marks, the min/max/legal checks, and the record assembly |
| `sink.dfy` | `Sink` | `make_opf` and the output stage: plain, split and partitioned DELIM files and LIST collection, as pure state steps and as a class `Output` updated in place |
| `reader.dfy` | `Reader` | parameter parsing, snapping the byte range to line starts as the code does it (with a corrected snapping beside it), header matching, and the row loop with sampling, `first_row`/`last_row` and `end_byte`; the loop is a method `Read` proved equal to a functional `ReadFile` |
| `chunks.dfy` | `Chunks` | `multi_process`: per-worker parameters and output names, the proof that the workers' byte ranges read every line exactly once when the file ends with a newline, and an example of a line lost when it does not |
| `cbsa.dfy` | `Cbsa` | `PopulateCBSAData`: `zip_state_agree`, `cbsa_code` and `cbsa_code_and_name` as a class updating a record in place, and a reader hook built from it |

Things the model takes as parameters rather than computing:

- Python's `float()` on text;
- the random draw used for sampling;
- `str()` of a value when it is written out;
- the partition-name pattern test;
- the user's hooks.

File contents are a `string`; a write to a file is an append to a map from path to rows.

Two of the core's files disagree, or differ from their documentation, in small ways. The model follows the code in each case:

- `PopulateCBSAData.cbsa_code` is documented as putting the state code in when a zip is in no CBSA. For a zip absent from `zipCBSA.dat` the code stores `None` in both `cbsa_code` and `cbsa_name`. The docstring's state-code case could only come from the contents of that file, which are not modelled.
- `multi_process` says at most 26 processes are allowed, but it rejects any count above 25.

## Model

| member | source | states |
|---|---|---|
| Calendar.ToEndOfMonth | data_reader/reader/reader.py:32-46 | defined exactly when the date is not in December 9999, where `datetime` overflows; the result is a valid date in the same year and month whose day is the month's length |
| Calendar.EndOfMonthIdempotent | data_reader/reader/reader.py:32-46 | moving an end-of-month date to the end of its month leaves it unchanged |
| Calendar.MakeDate | data_reader/data_reader.py:1270-1303 | `datetime.date(yr, mo, day)` succeeds exactly for a valid Gregorian date and then holds those three numbers |
| Calendar.FirstOfMonth | data_reader/data_reader.py:1304-1307 | `replace(day=1)` gives the first day of the same year and month |
| Values.PyLess | data_reader/data_reader.py:1342-1365 | `<` between two field values is defined exactly for number/number, str/str, bytes/bytes and date/date; every other pairing raises |
| Values.BeforeIrreflexive | data_reader/data_reader.py:1367-1371 | the order that sorted legal tables use is irreflexive |
| Values.BeforeTransitive | data_reader/data_reader.py:1367-1371 | that order is transitive |
| Values.BeforeTotal | data_reader/data_reader.py:1367-1371 | any two values that are not `==` are ordered one way or the other |
| Values.BeforeTrichotomy | data_reader/data_reader.py:1367-1371 | any two values are `==` or ordered one way |
| Values.BeforeIsPyLess | data_reader/data_reader.py:1342-1365 | wherever Python's `<` is defined on two values, the table order agrees with it |
| Values.SameUnordered | data_reader/data_reader.py:1369-1371 | two values are `==` exactly when neither comes before the other |
| Values.BeforeRespectsSame | data_reader/data_reader.py:1369-1371 | values that are `==` sit at the same place in the order |
| Values.NotBeforeTransitive | data_reader/data_reader.py:1369 | "not before" is transitive, as a binary search over a sorted table needs |
| Values.SortedCons | data_reader/data_reader.py:435 | a value not after the head of a sorted table can go in front of it |
| Values.SortedHead | data_reader/data_reader.py:435 | the head of a sorted table stays in front of a sorted permutation of its tail plus a larger value |
| Values.Insert | data_reader/data_reader.py:435 | inserting into a sorted table keeps it sorted and adds exactly the new value |
| Values.SortValues | data_reader/data_reader.py:435 | `legal_values.sort()` yields a sorted permutation of the values |
| Values.SortedMembership | data_reader/data_reader.py:435 | sorting neither adds nor loses a legal value: a value is `==` to an entry of the sorted table exactly when it is `==` to an entry of the original |
| Values.Bisect | data_reader/data_reader.py:1369 | the binary search stays inside its window |
| Values.BisectSplits | data_reader/data_reader.py:1369 | on a sorted table, everything before the index is smaller than the key and nothing from it on is |
| Values.SearchSortedSplits | data_reader/data_reader.py:1369 | `np.searchsorted` returns the leftmost insertion point of the key |
| Values.SearchSortedFinds | data_reader/data_reader.py:1369-1371 | the test "index inside the table and the entry there `==` the value" holds exactly when some entry of the table is `==` to the value, numbers compared across `int` and `float` |
| Values.IntFoundAmongFloats | data_reader/data_reader.py:1369-1371 | the `int` 0 is found in the legal table `[0.0, 1.0]` |
| Values.DictKey | data_reader/reader/reader.py:458-471 | the key a value files under in a `dict` is `==` to the value |
| Values.DictKeySame | data_reader/reader/reader.py:458-471 | two partition values share one `dict` slot exactly when they are `==`, so `1` and `1.0` share one |
| Values.GetSet | data_reader/data_reader.py:1381 | after `fx_out[k] = v`, reading `k` gives `v` and every other key reads as before |
| Values.SetSet | data_reader/data_reader.py:1381 | a second assignment to the same key overrides the first |
| Values.KeysSet | data_reader/data_reader.py:1381 | assigning a new key appends it to the ordered keys; assigning an existing key keeps the order |
| Values.GetPresent | data_reader/data_reader.py:1381 | a key can be read exactly when it is among the record's keys |
| Common.ParseDigits | data_reader/data_reader.py:1272-1274 | `int()` of a plain decimal digit string is the number the digits spell |
| Common.ParseUnderscores | data_reader/data_reader.py:1250 | `int("2_100")` is 2100, while a doubled or trailing underscore makes `int()` raise |
| Schema.DateLiteralDifference | data_reader/data_reader.py:336-366 | the `DATE(y,m,d)` check as written accepts every truly valid literal, and additionally exactly 29 February of 1900, 2100 and 2200 |
| Schema.DateLiteralCenturyLeap | data_reader/data_reader.py:364 | `DATE(2100,2,29)` is accepted as written, although 2100 is not a leap year |
| Schema.TypeReprOf | data_reader/data_reader.py:330 | `str(type(v)).upper()` is `<CLASS '…'>` around the upper-cased type name |
| Schema.FloatAcceptsInt | data_reader/data_reader.py:333-335 | a FLOAT field accepts an `int` bound |
| Schema.FloatAcceptsFloat | data_reader/data_reader.py:330-331 | a FLOAT field accepts a `float` bound |
| Schema.SpecialTypesRefuseStrings | data_reader/data_reader.py:330-367 | a ZIP, STATE or STATETERR field refuses every `str` bound, because the type name never contains the field type |
| Schema.DateTextNeedsLiteral | data_reader/data_reader.py:336-366 | a DATE bound given as `str` is accepted exactly when the `DATE(y,m,d)` check as written accepts it |
| Schema.StripMarks | data_reader/data_reader.py:384 | stripping `E` and then `B` from a format with one trailing mark recovers the bare format |
| Schema.FormatsWithMarksAccepted | data_reader/data_reader.py:384-386 | each of the eight date formats is accepted bare, with `E` and with `B` |
| Schema.Validate | data_reader/data_reader.py:369-476 | an accepted field has a legal type and action; start and width are both present or both absent, present exactly when a width was given, and at least 1 when present; only DATE fields carry a format; name and illegal replacement are kept; a DATE bound given as text passes the `DATE(y,m,d)` check as written, leap-year slip included |
| Schema.ValidateIff | data_reader/data_reader.py:369-462 | acceptance is exactly the conjunction of the source's checks, and never depends on the name or the illegal replacement |
| Schema.CheckLeadingItems | data_reader/data_reader.py:437-441 | the loop answers true exactly when the first twelve legal values have the field's type |
| Schema.DataDictionaryBuilder.constructor | data_reader/data_reader.py:183-188 | a new builder has no entries and a width count of 0 |
| Schema.DataDictionaryBuilder.Dictionary | data_reader/data_reader.py:190-203 | `None` exactly when no field was added, otherwise the entries in order |
| Schema.DataDictionaryBuilder.AddField | data_reader/data_reader.py:388-481 | the new entries, width count and error are those of `AddFieldSpec`; a width is counted before any later check can fail, and a valid entry is appended before the all-or-none rule is checked |
| Schema.AddFieldSpec | data_reader/data_reader.py:388-481 | the entries stay as they were or gain exactly the validated entry at the end; a call without an error has appended it; the width count rises by at most one |
| Schema.BadNamesChangeNothing | data_reader/data_reader.py:370-377 | a bad action or field type is rejected with its own error before anything changes |
| Schema.WidthCountedBeforeStartCheck | data_reader/data_reader.py:388-391 | a width without a start fails, but the width counter has already gone up |
| Schema.MixedWidthKeepsEntry | data_reader/data_reader.py:478-481 | breaking the all-or-none width rule raises, but the entry has already been added |
| Schema.WidthCountBounds | data_reader/data_reader.py:480 | the number of entries with a width is at most the entry count; it is 0 exactly when no entry has a width, and the full count exactly when every entry has one |
| Schema.AddFieldKeepsConsistent | data_reader/data_reader.py:388-481 | a successful `add_field` on a consistent builder keeps the counter equal to the number of width entries and keeps the all-or-none rule |
| Schema.FailureUnbalancesCounter | data_reader/data_reader.py:388-391 | after one failed call with a width and no start, a field without width and a field with width are both accepted, leaving a dictionary that breaks the all-or-none rule |
| Schema.FloatFieldTakesIntReplacement | data_reader/data_reader.py:409-423 | a FLOAT field with float bounds and an `int` replacement is accepted, with its start and width kept |
| Decode.AdjustDate | data_reader/data_reader.py:1304-1307 | an `E` mark moves the date to the last day of its month and a `B` mark to the first; year and month are kept; only `E` can fail |
| Decode.DateMarks | data_reader/data_reader.py:1263-1320 | a converted DATE field holds a valid date, on the month's last day under `E` and on day 1 under `B` |
| Decode.CcyymmddReadsBack | data_reader/data_reader.py:1270-1275 | a valid date written as CCYYMMDD parses back to itself |
| Decode.ZipPadded | data_reader/data_reader.py:1245-1249 | a 3- or 4-digit zip is left-padded with zeros to 5 characters |
| Decode.ZipFaultIsFatal | data_reader/data_reader.py:1250-1252 | a zip whose padded text is not an integer stops the read, whatever the field's policy |
| Decode.Convert | data_reader/data_reader.py:1225-1341 | a zip fault happens exactly for a ZIP field whose padded text is not an integer; only INT, FLOAT and DATE conversions can fail; a converted value has the kind of its field type |
| Decode.TypeStage | data_reader/data_reader.py:1309-1341 | only DROP marks the row dropped; the errors are the zip fault and, under FATAL, the conversion error |
| Decode.MinStage | data_reader/data_reader.py:1342-1353 | outside FIX the value is kept; only DROP marks the row dropped; the errors are a bound the value cannot be compared with and, under FATAL, a value below the minimum |
| Decode.MaxStage | data_reader/data_reader.py:1354-1365 | outside FIX the value is kept; only DROP marks the row dropped; the errors are a bound the value cannot be compared with and, under FATAL, a value above the maximum |
| Decode.LegalStage | data_reader/data_reader.py:1367-1380 | outside FIX the value is kept; only DROP marks the row dropped; the errors are the `TypeError` of searching the table for a value it cannot be compared with, and an illegal value under FATAL |
| Decode.DecodeField | data_reader/data_reader.py:1223-1380 | only DROP marks a row dropped; an error is the zip fault, a bound or legal table the value cannot be compared with, or comes from a FATAL field |
| Decode.LegalStageMeans | data_reader/data_reader.py:1367-1380 | on a sorted table, the legal-value stage raises when the value cannot be compared with every entry (`None`, or text against dates or numbers); otherwise it keeps a value exactly when some entry is `==` to it (an `int` matching an equal `float`), and applies the policy to any other |
| Decode.FatalDecodes | data_reader/data_reader.py:1223-1380 | under FATAL a field decodes exactly when it converts and passes every check, and then holds its converted value, not dropped |
| Decode.DropKeepsValue | data_reader/data_reader.py:1310-1380 | under DROP a converted, comparable value is kept unchanged and marked dropped exactly when it fails a check |
| Decode.DropThenCompareFails | data_reader/data_reader.py:1321-1350 | under DROP an INT field whose text does not convert keeps the text, and the minimum check then raises a `TypeError` |
| Decode.UnconvertedNoneRaises | data_reader/data_reader.py:1331-1371 | an INT field under FIX with the default replacement `None` turns unconvertible text into `None`, which the bounds skip and the legal-value search of an `int` table raises on |
| Decode.UndatedTextRaises | data_reader/data_reader.py:1264-1371 | a DATE field under DROP keeps text that is not a date, and searching a table of dates for it raises instead of dropping the row |
| Decode.FixStaysInBounds | data_reader/data_reader.py:1342-1380 | under FIX, with replacements inside the bounds, a decoded value is never dropped, stays within the bounds, and is `==` to a legal value or is the illegal replacement |
| Decode.IntReplacementIsLegal | data_reader/data_reader.py:1342-1380 | under FIX, a FLOAT field whose low value is replaced by the `int` 0 keeps that 0 through a legal table of floats holding 0.0 |
| Decode.FieldResults | data_reader/data_reader.py:1218-1381 | one result per schema field, each the field's decode from its mapped column |
| Decode.DecodeRecord | data_reader/data_reader.py:1218-1381 | the field loop computes `DecodeRow` |
| Decode.AssembleOutcome | data_reader/data_reader.py:1218-1381 | assembly succeeds exactly when every field does; the row stays kept exactly when no field was dropped; an error is that of the first failing field |
| Decode.AssembleRecord | data_reader/data_reader.py:1381 | assembly appends the field names in schema order, each holding its decoded value, and leaves other keys alone |
| Decode.RowOutcome | data_reader/data_reader.py:1218-1381 | a row decodes exactly when every field does; it is kept exactly when no field was dropped; a failure reports the first failing field's error |
| Decode.RowHoldsFields | data_reader/data_reader.py:1381 | a decoded `fx_out` has the schema's names as keys, in order, each holding its field's decoded value |
| Sink.NamePartsPlain | data_reader/reader/reader.py:62-73 | with a dot after the last slash, the name splits into directory, stem and extension, which concatenate back to the name |
| Sink.MakeOpfPlain | data_reader/reader/reader.py:62-91 | without partition or split number, `make_opf` returns the output file unchanged |
| Sink.MakeOpfNumbered | data_reader/reader/reader.py:88-90 | a split number goes between the stem and the extension |
| Sink.MakeOpfInjective | data_reader/reader/reader.py:88-90 | different split numbers give different file names |
| Sink.MakeOpfPartitionDir | data_reader/reader/reader.py:74-79 | a clean partition name becomes a sub-directory of the output directory |
| Sink.MakeOpf | data_reader/reader/reader.py:62-91 | a name is built for every non-empty output file name; an empty one raises `IndexError` |
| Sink.Without | data_reader/reader/reader.py:422 | the output names are the record's names except the partition field |
| Sink.FilterOut | data_reader/reader/reader.py:422 | the filtering loop computes `Without` |
| Sink.FieldValues | data_reader/reader/reader.py:514 | a LIST row holds the record's values in key order |
| Sink.RenderRow | data_reader/reader/reader.py:446-451 | the writing loop renders each output name's value, failing on a missing name |
| Sink.InitialInv | data_reader/reader/reader.py:376-378 | the starting output state satisfies both output invariants |
| Sink.PlainStep | data_reader/reader/reader.py:423-456 | a plain DELIM row keeps the invariant and appends the row to the open file (after the header on a new file); split files get consecutive numbered names; a file is closed exactly when its count passes `split_file`; no file holds more than `split_file` + 1 rows |
| Sink.PartStep | data_reader/reader/reader.py:457-484 | a partitioned row goes to the slot of its value's `dict` key, so `1` and `1.0` share one, opened or reopened under the next split number as needed; only that slot and that file change |
| Sink.PartKeepsInv | data_reader/reader/reader.py:457-484 | a partitioned row keeps the slot invariant: every slot's count lies between -1 and `split_file`, and its file exists |
| Sink.PartitionNames | data_reader/reader/reader.py:417-422 | the first row fails if it lacks the partition field; otherwise the output names are its keys without that field |
| Sink.ListStep | data_reader/reader/reader.py:513-515 | a LIST row appends the record's values and touches no file |
| Sink.Step | data_reader/reader/reader.py:416-515 | no file is ever removed; only DELIM output writes files; only LIST output collects rows |
| Sink.Output.constructor | data_reader/reader/reader.py:376-378 | a new output starts in the initial state |
| Sink.Output.Emit | data_reader/reader/reader.py:416-515 | the output's new state is the `Step` of the old state; on an error nothing changes |
| Sink.Output.PlainTarget | data_reader/reader/reader.py:425-437 | opening a plain target yields the path, count and contents of `OpenPlain` |
| Sink.Output.EmitPlain | data_reader/reader/reader.py:423-456 | the new state is `WritePlain` of the old one, or unchanged on an error |
| Sink.Output.PartSlot | data_reader/reader/reader.py:458-471 | the slot lookup computes `OpenSlot` |
| Sink.Output.EmitPart | data_reader/reader/reader.py:457-484 | the new state is `WritePart` of the old one, or unchanged on an error |
| Reader.SplitOf | data_reader/reader/reader.py:224-229 | a `split_file` of 10 or less is dropped; a kept one is a number above 10 |
| Reader.Configure | data_reader/reader/reader.py:188-293 | accepted settings have a sample rate in (0, 1], `first_row` ≥ 0, `last_row` > 0 and `first_row` ≤ `last_row`, and a valid output configuration |
| Reader.ConfigureAccepts | data_reader/reader/reader.py:242-293 | the settings are accepted exactly when the sample rate, first row and last row pass the source's checks |
| Reader.SmallSplitIgnored | data_reader/reader/reader.py:224-229 | an integer `split_file` of at most 10 leaves the output unsplit |
| Reader.NewlineFrom | data_reader/reader/reader.py:320 | `m.find(b"\n", i)` gives the first newline at or after `i`, or -1 |
| Reader.NextStart | data_reader/reader/reader.py:383 | `readline` moves past the next newline, or to the end of the file |
| Reader.SnapStartAsWritten | data_reader/reader/reader.py:319-323 | the offset as written is always a line boundary, 0 when no newline follows `start_byte` |
| Reader.SnapStart | data_reader/reader/reader.py:319-323 | the corrected start offset is a line boundary |
| Reader.SnapEnd | data_reader/reader/reader.py:324-328 | the corrected end offset is a line boundary, present exactly when `end_byte` is |
| Reader.SnapAgrees | data_reader/reader/reader.py:319-328 | when a newline follows the offset, the corrected and as-written snapping agree |
| Reader.SharedBoundary | data_reader/reader/reader.py:319-328 | one worker's snapped end equals the next worker's snapped start at the same offset |
| Reader.LineStartsSplit | data_reader/reader/reader.py:396-398 | the lines read up to a boundary, followed by those read from it, are the lines read across it |
| Reader.LineStartsAreLines | data_reader/reader/reader.py:383 | every row starts on a line boundary inside the file |
| Reader.SnapAsWrittenLosesLine | data_reader/reader/reader.py:319-328 | on `"a\nbbbb"` cut at byte 2, snapping as written reads line 0 twice and never reads line 2; the corrected snapping reads each line once |
| Reader.FirstMatch | data_reader/reader/reader.py:365-368 | the first header equal to a column name, or none |
| Reader.IndicesFrom | data_reader/reader/reader.py:363-370 | each successful step adds one index |
| Reader.IndicesFromOk | data_reader/reader/reader.py:363-370 | matching succeeds exactly when every remaining name is a header |
| Reader.IndicesFromFound | data_reader/reader/reader.py:363-370 | each index found is the name's first match |
| Reader.IndicesFromMissing | data_reader/reader/reader.py:369-370 | a failure names the first column missing from the headers |
| Reader.IndicesOfMeans | data_reader/reader/reader.py:360-370 | header matching succeeds exactly when every name is a header; each index points at the first header with that name; a failure names the first missing column |
| Reader.HeaderIndices | data_reader/reader/reader.py:363-370 | the nested loop computes `IndicesOf` |
| Reader.HeaderNames | data_reader/reader/reader.py:361-362 | one header per delimited piece of the first line |
| Reader.Identity | data_reader/reader/reader.py:372 | without headers the columns map to themselves |
| Reader.Begin | data_reader/reader/reader.py:318-374 | a file of no bytes fails at the memory map with `ValueError` before anything else; otherwise the loop starts on a line boundary, with one column index per field; a FLAT file, or one without headers, starts at the offset snapped as written with the identity mapping; a non-empty DELIM file with headers starts exactly when every field name is a header |
| Reader.Slices | data_reader/data_reader.py:1195-1199 | a FLAT record yields one slice per field, at its start and width from the offset |
| Reader.Next | data_reader/reader/reader.py:383-386 | a read row lies inside the file and moves the position forward |
| Reader.Rows | data_reader/reader/reader.py:380-398 | rows are read in file order, each starting inside the file at or after the start position, at most one per remaining character |
| Reader.RowsUnfold | data_reader/reader/reader.py:380-398 | the loop stops at the end of the file, after `last_row`, or past `end_byte`; otherwise it records the row with its number and eligibility and continues |
| Reader.RowsNumbered | data_reader/reader/reader.py:390 | rows are numbered consecutively from 1 |
| Reader.RowsLength | data_reader/reader/reader.py:393-395 | the loop reads the available rows, capped at `last_row` |
| Reader.RowWindow | data_reader/reader/reader.py:388-395 | with no sampling, exactly `last_row` rows are read, and row `i` is kept exactly when `i ≥ first_row` |
| Reader.DelimRowsAreLines | data_reader/reader/reader.py:383-386 | the rows of a DELIM file are its lines within the range, each split on the delimiter |
| Reader.ValueRows | data_reader/reader/reader.py:513-515 | one LIST row per record, holding its values |
| Reader.HandleCollects | data_reader/reader/reader.py:399-415 | a LIST row appends the values of the record the hooks return, when kept; only a field error stops it |
| Reader.Handle | data_reader/reader/reader.py:399-484 | a row that is not eligible changes nothing; a row fails only with a field or an output error; no file is removed, and only DELIM output writes files |
| Reader.Process | data_reader/reader/reader.py:380-515 | a run of rows stops only on a field or an output error; no file is removed; only DELIM output writes files |
| Reader.ProcessCollects | data_reader/reader/reader.py:380-515 | a LIST read that ends without an error returns exactly the values of the kept records, as the hooks left them, in file order |
| Reader.ProcessFailsOnField | data_reader/reader/reader.py:380-515 | a LIST read can end only with a field's error |
| Reader.ProcessKeepsInv | data_reader/reader/reader.py:416-484 | a DELIM read keeps the plain or partitioned output invariant over any run of rows |
| Reader.ReadFileKeepsInv | data_reader/reader/reader.py:380-484 | a whole DELIM read ends in a state that satisfies its output invariant |
| Reader.ReadFile | data_reader/reader/reader.py:318-543 | a file of no bytes ends the read with the memory map's `ValueError` and no output; a missing column ends the read before any output; an unpartitioned DELIM read that ends without an error has opened a file; other outputs write no file |
| Reader.SkippedRowsChangeNothing | data_reader/reader/reader.py:388-398 | rows that keepx turns away before decoding leave the output as it was and raise nothing |
| Reader.NoRowKeptNeverOpened | data_reader/reader/reader.py:388-536 | a non-empty file read without a header line into one unpartitioned DELIM file, with `first_row` past its last line, keeps no row and ends with the error of closing a file that was never opened |
| Reader.Start | data_reader/reader/reader.py:318-374 | the start-up code computes `Begin` |
| Reader.HandleRow | data_reader/reader/reader.py:399-484 | handling a row updates the output to `Handle`'s state, or leaves it unchanged on an error |
| Reader.Read | data_reader/reader/reader.py:380-536 | the row loop and the closing of the output compute `ReadFile` |
| Chunks.VersionIsAlphabet | data_reader/data_reader.py:514 | the corrected version string is the 26-letter alphabet |
| Chunks.AsWrittenNamesCollide | data_reader/data_reader.py:514-526 | with the string as written, workers 16 and 22 get the same output file name |
| Chunks.AsWrittenCollisionExample | data_reader/data_reader.py:524-526 | for `out.csv`, both workers write `outq.csv` |
| Chunks.ChunkNamesDistinct | data_reader/data_reader.py:524-526 | with the corrected string, different workers get different file names |
| Chunks.WrittenLettersAgree | data_reader/data_reader.py:514 | the letters as written agree with the alphabet for the first 22 workers |
| Chunks.AsWrittenNamesDistinct | data_reader/data_reader.py:514-526 | with the letters as written, the first 22 workers still get distinct output names |
| Chunks.PlanChunks | data_reader/data_reader.py:500-532 | 0 processes fail, more than 25 fail, a negative count plans nothing; otherwise planning succeeds exactly when the needed output type and file are present, with worker `k` taking bytes `k·sz-1 … (k+1)·sz-1` and, for DELIM output, the name the letters as written give it |
| Chunks.RangesAdjoin | data_reader/data_reader.py:512-532 | consecutive workers' ranges meet; the first starts at 0 and the last ends at the file size minus 1 |
| Chunks.CutsRise | data_reader/data_reader.py:531-532 | with the corrected snapping, chunk boundaries never decrease |
| Chunks.SnappedPrefix | data_reader/data_reader.py:511-532 | with the corrected snapping, the first `m` workers together read exactly the lines before the `m`-th boundary |
| Chunks.ChunksTile | data_reader/data_reader.py:511-532 | for a file that ends with a newline and has more characters than workers, the workers together read every line exactly once, in order, with the snapping as written |
| Chunks.SnappedTile | data_reader/data_reader.py:511-532 | with the corrected snapping the workers read every line exactly once, whether or not the file ends with a newline |
| Chunks.PlanRangesInData | data_reader/data_reader.py:511-532 | every planned worker's byte range lies inside the file |
| Chunks.ChunkLinesAgree | data_reader/reader/reader.py:319-328 | in a file that ends with a newline, a worker reads the same lines with the snapping as written as with the corrected one |
| Chunks.AllChunkLinesAgree | data_reader/data_reader.py:511-532 | when each worker reads the same lines under both snappings, so do the first `m` workers together |
| Chunks.AsWrittenChunksMiss | data_reader/data_reader.py:511-532 | two workers on `"a\nbbbb"` read line 0 twice and line 2 never |
| Cbsa.Locate | data_reader/data_reader.py:75-76 | a found row holds the zip; the lookup raises exactly for a zip that is not text |
| Cbsa.FirstWith | data_reader/data_reader.py:75-76 | the first table row with the zip, or none |
| Cbsa.LocateAgrees | data_reader/data_reader.py:75-76 | on a sorted table, `searchsorted` plus the equality test finds the first row with the zip, or reports absence |
| Cbsa.ZipStateMeans | data_reader/data_reader.py:124-146 | on a table sorted by zip, `zip_ok` is true exactly when the zip is in the table and the row's state equals the record's state; no other field changes |
| Cbsa.CodeFields | data_reader/data_reader.py:72-85 | on a table sorted by zip, `cbsa_code` is the row's code, or `None`; `cbsa_name` becomes `None` only for a text zip missing from the table; nothing else changes |
| Cbsa.CodeMeans | data_reader/data_reader.py:58-85 | on a table sorted by zip, as `CodeFields`, with `zip_ok` set first when state checking is on |
| Cbsa.CodeAndNameFields | data_reader/data_reader.py:106-122 | on a table sorted by zip, code and name are the row's, or both `None`; nothing else changes |
| Cbsa.CodeAndNameMeans | data_reader/data_reader.py:87-122 | on a table sorted by zip, as `CodeAndNameFields`, with `zip_ok` set first when state checking is on |
| Cbsa.CodeAndNameColumns | data_reader/data_reader.py:106-122 | a record lacking the two fields gains `cbsa_code` and `cbsa_name` at the end |
| Cbsa.CodeHas | data_reader/data_reader.py:72-85 | `cbsa_code` is always present afterwards |
| Cbsa.Fields.constructor | data_reader/data_reader.py:63-64 | the record wrapper holds the given record |
| Cbsa.PopulateCbsa.constructor | data_reader/data_reader.py:22-56 | the table and the state-check flag are stored |
| Cbsa.PopulateCbsa.ZipStateAgree | data_reader/data_reader.py:124-146 | the record becomes `ZipStateAgreed` of the old record |
| Cbsa.PopulateCbsa.CbsaCode | data_reader/data_reader.py:58-85 | the record becomes `CodeOf` of the old one, and the row is kept |
| Cbsa.PopulateCbsa.CbsaCodeAndName | data_reader/data_reader.py:87-122 | the record becomes `CodeAndNameOf` of the old one, and the row is kept |
| Cbsa.KeptCarryCode | data_reader/data_reader.py:1382-1387 | with `cbsa_code` as the user method, every kept record carries `cbsa_code` |

## Left out

- TFRECORDS, NUMPY and PANDAS output are not modelled. They are TensorFlow, numpy and pandas encodings (`reader.py:485-512` and the NUMPY/PANDAS reshaping). The pool merge of `multi_process` is left out for the same reason, so the indexing slip in its NUMPY branch is not modelled either.
- Process pools and concurrency are not modelled. `multi_process` is modelled up to the per-worker parameter list.
- gzip of closed files, `mkdir` of partition directories, and the memory-map remapping every `window` bytes are not modelled. These are side effects that do not change what is read or written.
- Fields delimited with a quote character (`string_delim`, the `csv` module) are not modelled. DELIM rows are split on the delimiter.
- Parsing floats from text, `str()` of a value, the random draw for `sample_rate`, the partition-name regular expression and the user's hooks are parameters of the model, not computed.
- A row whose writing fails half-way is not modelled: the row is either written whole or not at all.
- Reader.Next: requires a FLAT `lrecl` of at least 1. With `lrecl` 0 the source loops forever.
- Chunks.ChunksTile: proved for a file of more characters than workers that ends with a newline, read without headers. Without the final newline the snapping as written can lose a line (`Chunks.AsWrittenChunksMiss`). It does not cover a header line re-read by every worker, and it takes the real byte bounds exactly, without float rounding.
- Non-UTF-8 input is not modelled: the file is a sequence of characters.
- Schema.Validate: does not model the `AttributeError` raised by `__check_type` on a `DATE` check of an object without `upper`.
- The built-in legal tables (`zips.dat`, `states.dat`, `territories.dat`) and the `column_names.dat` and legal-value files that link `create_reader` to the generated module are not modelled. A field's legal table is a sorted sequence in the model.
- Decode.Convert: `remove_char` is modelled as a single character.
- Decode.Convert: the float parser is a parameter returning a finite real or nothing, so Python's `float()` results `inf`, `-inf` and `nan` (from text such as "inf", "1e400" or "nan") are not modelled. On an INT field `int(float(...))` of an infinity raises `OverflowError`, which the `except ValueError` at data_reader.py:1331 does not catch, so the read stops under every policy. On a FLOAT field an infinity or nan is stored, and a nan passes both bound checks because every comparison with it is false. The model has neither outcome.
- Duplicate field names in a schema are not handled. Decode.RowHoldsFields assumes distinct names.
- Pasting bounds into generated source with `str()` is not modelled. A bound in the emitted reader is a `Value`.
- The checks on `user_function` and `user_class`, and an explicit `start_byte=None`, are not modelled.
- `PopulateCBSAData.__init__` is not modelled. It reads `zipCBSA.dat`; the model takes the table as a sequence of entries.
- Cbsa: the zip column of `zipCBSA.dat` is assumed sorted, since the source relies on the file's order and never sorts it. On an unsorted column `searchsorted` can miss a zip that is present, and the lemmas about the lookups say nothing about that case.
- Chunks.PlanChunks: does not model that `multi_process` also sets the caller's own `params['first_row']` to `None`, a change to the caller's dictionary that outlives the call.
- Decode.LegalStage: treats searching a numeric table for text or bytes as raising. Whether numpy raises there or compares depends on its version. `None` against numbers and text against dates raise in every version.
- Cbsa.Locate: takes a non-text zip down the exception path. With a numpy version that compares an `int` zip with the `str` column instead of raising, `cbsa_code` would also reset `cbsa_name`.
- Chunks.PlanChunks: reports a zero process count as `ZeroProcesses`. The source's bare `except` turns that division error into `FileNotFoundError`.
- Values.Same: treats a `bool` as unequal to every number, where Python has `True == 1`. Only a user hook stores a `bool`.
- Common.ParseInt: accepts ASCII digits only, where Python's `int()` also takes other Unicode decimal digits.
- Values.PyLess: leaves out `bool`. Only a user hook stores a `bool` (`zip_ok`), and the range and legal checks never see one.

## Findings

The reader, the schema checks and the worker plan follow the code as written. Each corrected definition sits beside it, with the intended property proved about it.

| source | as written | input that shows it | evidently intended | confidence | as-written member | corrected member |
|---|---|---|---|---|---|---|
| data_reader/data_reader.py:364 | the `DATE(y,m,d)` check treats every year divisible by 4 as a leap year | `DATE(2100,2,29)` is accepted as a bound, although that day does not exist | Gregorian leap years, as `datetime` uses when the reader builds dates | not executed | Schema.DateLiteralCenturyLeap | Schema.DateLiteralDifference |
| data_reader/data_reader.py:514 | the version string is `'abcdefghijklmnopqrstuvqxyz'`, with `q` in place of `w` | 23 workers writing `out.csv`: workers 16 and 22 both write `outq.csv` | the 26-letter alphabet, giving one file per worker | not executed | Chunks.AsWrittenCollisionExample | Chunks.ChunkNamesDistinct |
| data_reader/reader/reader.py:319-328 | with no newline at or after `start_byte`, the offset becomes 0; with none after `end_byte`, the raw offset is kept | `"a\nbbbb"` split at byte 2: worker 1 reads line 0 only; worker 2 starts at 0 and reads line 0 again; line 2 is never read | snap both bounds to the next line start, or to the end of the file | not executed | Chunks.AsWrittenChunksMiss | Chunks.SnappedTile |
