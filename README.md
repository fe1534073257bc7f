# xmlCalc in Dafny

xmlCalc scans a directory for XML files. In each file it selects the
`folder[@name='calculation']` elements under `folder[@name='calculations']`
under a `folder` document element. Each selected folder should carry one
child naming an operator (`name="operand"`) and one child holding an integer
(`name="mod"`). The valid folders become `(operator, number)` pairs in an array
`aCalc` with one slot per selected folder. The program folds the whole array
from accumulator 0 with C# `int` arithmetic and records `(result, count)` per
file in a success map, or a reason in an error map. Finally it reports the
largest count and every file that reaches it.

The model is split by the program's structure:

- `Wrappers`: `Option` and `Result`.
- `CSharpInt`: 32-bit `int`.
  - `+`, `-` and `*` wrap around modulo 2^32.
  - `/` and `%` truncate toward zero.
  - `int.TryParse` is a decimal parser with surrounding white space, an optional sign and a range check.
  - A formatter whose output the parser reads back.
- `XmlTree`: elements with attributes and element children. The fixed location path is a tree walk in document order (section 2 of the W3C XPath 1.0 Recommendation).
- `Extractor`: the operator table, the scan of one calculation folder and the filling of `aCalc`.
  - Specified by `DecodeFolder`, `ValidCalcs` and `Slots`.
  - The loops are methods proved against those functions.
- `Evaluator`: the fold `Evaluate` over the slots, and the loop `EvaluateArray` proved against it.
- `FileTask`: the classification of one file (`Classify`) and the two shared maps as the class `ResultStore`. Its `ProcXml` performs one file's task.
- `Batch`: the max-count pass (`Aggregate`) and a sequential run over a directory listing (`Run`, specified by `ReportOf`).

The model follows what the code does, in these places in particular:

- A file whose selected folders are all invalid is a success with result 0. Only an empty selection is an error (`AllInvalidSucceeds`, `ClassifyNoElements`).
- The count is the number of selected folders, valid or not. Unfilled slots keep the default `{add, 0}` and are counted too, though they add nothing to the result (`EvaluateSlots`, `ClassifySucceeded`).
- The accumulator starts at 0. A file of multiplications therefore yields 0, not the product of its operands (`AllMultiplies`).
- Division or remainder by 0 raises `DivideByZeroException`. `int.MinValue / -1` and `int.MinValue % -1` raise `OverflowException`. Both are unhandled in `ProcXml`: no entry is written, and the exception ends the process. The model returns the exception from `ProcXml`, and `Run` ends with `Aborted`.
- `WaitHandle.WaitAll` accepts at most 64 handles and throws `NotSupportedException` for more (Program.cs:43). A directory with more than 64 XML files therefore never reaches the report; `Run` ends with `TooManyFiles` (`CompletedWithinWaitLimit`). The maximum is thus reported only for 2 to 64 files.
- An attribute lookup takes the last attribute of that name and reads "" when there is none. On well-formed XML names are unique, so this is the attribute itself (`AttributeValueOfUnique`).

## Model

| member | source | states |
|---|---|---|
| CSharpInt.Wrap | Program.cs:194-196 | the wrapped value is congruent to the exact result modulo 2^32 and equals it when it fits in 32 bits |
| CSharpInt.WrapAdd | Program.cs:194 | wrapping after every addition gives the same value as wrapping the exact sum once |
| CSharpInt.TruncDiv | Program.cs:197 | the quotient's magnitude is the floor of the magnitudes' quotient and its sign is that of the operands' product (rounding toward zero) |
| CSharpInt.TruncRem | Program.cs:198 | `a == b * (a / b) + r`, `|r| < |b|`, and a non-zero remainder has the dividend's sign |
| CSharpInt.TruncDivInRange | Program.cs:197 | a quotient of two 32-bit values fits in 32 bits exactly when it is not MinValue / -1 |
| CSharpInt.TrimStartRemovesLeadingWhite | Program.cs:180 | the white space `int.TryParse` skips before the number is exactly the leading run of white space |
| CSharpInt.TrimEndRemovesTrailingWhite | Program.cs:180 | the white space skipped after the number is exactly the trailing run of white space |
| CSharpInt.ParseFormat | Program.cs:180 | the parser reads decimal text back as its number when it fits in 32 bits and rejects it otherwise |
| CSharpInt.ParseInt32 | Program.cs:180 | defines `int.TryParse`: white space trimmed on both sides, an optional sign and ASCII digits, kept only when the value lies in the `int` range; the rows above state its properties |
| XmlTree.AttributeValue | Program.cs:155-161 | defines the attribute scan: the value of the last attribute of that name, or "" when there is none; its properties are the next two rows |
| XmlTree.AttributeValueOfUnique | Program.cs:155-161 | on an element with unique attribute names, the overwriting scan yields that attribute's value |
| XmlTree.AttributeValueOfAbsent | Program.cs:153-161 | a missing attribute reads as "" |
| XmlTree.FoldersNamed | Program.cs:132 | a location step keeps exactly the `folder` elements with that `name`, and no more elements than it was given |
| XmlTree.CalculationsUnderMembers | Program.cs:132 | an element is found under the sections exactly when it is a calculation folder that is a child of one of them |
| XmlTree.CalculationsUnder | Program.cs:132 | every element found under the sections is a `calculation` folder |
| XmlTree.SelectCalculations | Program.cs:132-133 | every selected element is a `folder` named `calculation`; the next rows state exactly which ones and in what order |
| XmlTree.SelectCalculationsMembers | Program.cs:132-133 | an element is selected iff the document element is a `folder` and the element is a `calculation` folder that is a child of a `calculations` folder that is a child of it |
| XmlTree.SelectCalculationsAppend | Program.cs:133 | the selection is in document order: children `a + b` select what `a` selects followed by what `b` selects |
| Extractor.OpOf | Program.cs:111-117 | the table maps exactly the five case-sensitive keys, each to the operator of that name |
| Extractor.OpOfName | Program.cs:111-117 | every operator is found under its own key |
| Extractor.CountedValuesNonEmpty | Program.cs:163-174 | only children with a non-empty value count, and there are no more of them than children |
| Extractor.ReadAttributes | Program.cs:152-161 | the attribute scan leaves the last `name` and the last `value`, or "" when absent |
| Extractor.ScanFolder | Program.cs:148-175 | the counter is the number of counted `operand` and `mod` children, and the two strings hold the last counted value of each |
| Extractor.AcceptanceAgrees | Program.cs:177-182 | a counter of 2 with both values set holds exactly when there is one counted `operand` and one counted `mod`, whose values are then the ones kept |
| Extractor.DecodeFolder | Program.cs:146-182 | defines the reading of one folder: a calculation when there is exactly one counted `operand` and one counted `mod`, the operator is known and the number parses, otherwise nothing; `AcceptanceAgrees` and `DecodeCalcFolder` tie the loops to it |
| Extractor.DecodeCalcFolder | Program.cs:146-185 | the source's acceptance test on one folder agrees with DecodeFolder: one operand, one mod, a known operator and a parsable integer |
| Extractor.ValidCalcs | Program.cs:141-185 | there are never more valid calculations than selected folders |
| Extractor.ValidCalcsAppend | Program.cs:144-185 | valid calculations keep the document order of their folders |
| Extractor.InvalidFolderIgnored | Program.cs:181-182 | a folder that fails the test contributes nothing, wherever it stands |
| Extractor.SlotsLength | Program.cs:141 | `aCalc` has one slot per selected folder |
| Extractor.FilledIsSlots | Program.cs:141-185 | valid calculations from index 0 followed by default slots, one slot per folder, is exactly the slot sequence |
| Extractor.Extract | Program.cs:141-186 | a fresh array of one slot per folder; `i` is the number of valid folders; the array holds their calculations in document order and defaults after them |
| Evaluator.Step | Program.cs:192-199 | a step raises exactly for `divide`/`mod` by 0 (DivideByZero) or MinValue by -1 (Overflow) and otherwise yields a value |
| Evaluator.Fold | Program.cs:188-201 | the fold from an accumulator raises only if some slot is a `divide` or `mod` |
| Evaluator.Evaluate | Program.cs:188-201 | defines the value of `calcResult` after the loop: the fold from 0 over the slots; the next rows state its properties |
| Evaluator.FoldAppend | Program.cs:190-201 | folding `a + b` folds `a`, then `b` from where `a` left off, stopping at an exception |
| Evaluator.ErrorSticks | Program.cs:197-198 | once an exception is raised, later slots do not change the outcome |
| Evaluator.FoldDefaults | Program.cs:194 | default slots `{add, 0}` leave the accumulator unchanged |
| Evaluator.EvaluatePadded | Program.cs:141-194 | default slots after the filled ones do not change the result |
| Evaluator.EvaluateSlots | Program.cs:141-201 | folding all of `aCalc` gives the fold over the valid calculations alone |
| Evaluator.AllAdds | Program.cs:194 | additions only give the sum of the operands, wrapped to 32 bits |
| Evaluator.AllMultiplies | Program.cs:188-196 | multiplications only give 0 |
| Evaluator.DivisionByZeroFaults | Program.cs:197-198 | a `divide` or `mod` by 0 anywhere makes the evaluation raise |
| Evaluator.FaultsHaveCause | Program.cs:197-198 | the evaluation raises only at a division by 0 or -1, and DivideByZero only at a division by 0 |
| Evaluator.EvaluateArray | Program.cs:188-201 | the loop succeeds exactly when the fold does, with the fold's value and a count equal to the array length, and otherwise reports the fold's exception |
| FileTask.Classify | Program.cs:119-208 | a success counts at least one folder, and only a parse error comes from a document that did not load; the next rows state when each outcome occurs |
| FileTask.ClassifySucceeded | Program.cs:119-206 | a file succeeds iff it loads, selects a folder and its valid calculations evaluate; then count = selected folders and result = fold over the valid calculations |
| FileTask.ClassifyNoElements | Program.cs:133-139 | the "no required elements" error occurs exactly when the document loads and selects nothing |
| FileTask.AllInvalidSucceeds | Program.cs:141-206 | selected folders that are all invalid give a success with result 0 and one count per folder |
| FileTask.CompactEmpty | Program.cs:181-182 | when no folder is valid, nothing is written to `aCalc` |
| FileTask.DivisionByZeroNoEntry | Program.cs:197-207 | a valid division by 0 makes the file's processing raise instead of recording a result |
| FileTask.TryAdd | Program.cs:128 | the entry is added only when the key is absent; existing entries are kept |
| FileTask.Publish | Program.cs:128-206 | publishing one file's outcome leaves every other file's entries, and their absence, as they were |
| FileTask.PublishOnce | Program.cs:128-206 | publishing a new file gives it one entry, in the map its outcome selects, with its data, keeps the maps disjoint and leaves other files' entries alone |
| FileTask.ResultStore.constructor | Program.cs:106-109 | both maps start empty |
| FileTask.ResultStore.ProcXml | Program.cs:119-208 | the maps afterwards are the maps before with the file's classified outcome published, and `ProcXml` returns the exception exactly when the outcome is an exception |
| Batch.MaxCount | Program.cs:55-70 | defines the maximum the pass keeps: the largest count, or 0 when there is none above 0; `MaxCountIsMaximum` states its properties |
| Batch.MaxFiles | Program.cs:55-70 | defines the files the pass keeps: those whose count is the maximum, in visiting order, none when the maximum is 0; `AchieversMembers` and `SummaryIsMaximum` state its properties |
| Batch.MaxCountIsMaximum | Program.cs:56-68 | the maximum bounds every count and, when positive, is some entry's count |
| Batch.AchieversMembers | Program.cs:63-70 | a file is listed exactly when one of its entries has the given count |
| Batch.AchieversAboveMax | Program.cs:63-67 | no entry reaches a count above the maximum, so a new maximum restarts the list |
| Batch.MaxIsReached | Program.cs:63-70 | a positive maximum is reached by at least one file |
| Batch.TiesAreKept | Program.cs:55-70 | counts [3, 5, 5] give maximum 5 and both files at 5, in order |
| Batch.Aggregate | Program.cs:55-70 | the pass yields the maximum count (0 if none is positive) and, when positive, exactly the files with that count in visiting order |
| Batch.ApplyStep | Program.cs:37-43 | one more task either raises, or publishes its outcome into the maps so far |
| Batch.AbortSticks | Program.cs:37-43 | once a task has raised, the run ends there whatever follows |
| Batch.CompletesIffNoFault | Program.cs:37-43 | the run completes exactly when no task raises |
| Batch.KeysListed | Program.cs:37-43 | every key in either map is a file that was processed |
| Batch.EachRecordedOnce | Program.cs:119-208 | with distinct paths, no file is in both maps and every file has the entry its outcome calls for |
| Batch.RunRecordsEachFile | Program.cs:27-43 | over a listing of distinct paths, the run completes iff no file's task raises, and then each file has exactly the entry its classification calls for and no unlisted path has one |
| Batch.SuccessEntriesFromMap | Program.cs:58-61 | every visited success is an entry of the success map |
| Batch.SuccessEntriesVisitAll | Program.cs:58-61 | every listed file with a success is visited |
| Batch.ReportOf | Program.cs:13-81 | defines how the program ends for a directory listing: no directory, no XML file, more than 64 files, an exception from a task, or both maps with the summary; the rows below state its properties |
| Batch.SuccessCountsPositive | Program.cs:203-206 | when every success outcome counts a folder, every entry of the success map does too |
| Batch.SuccessesListedAndPositive | Program.cs:119-206 | every success of a completed run is a listed file and counts at least one folder |
| Batch.SuccessesMaximum | Program.cs:55-70 | over a non-empty success map with positive counts, the maximum is some success's count, no success exceeds it, and the files kept are exactly the successes with that count |
| Batch.SummaryIsMaximum | Program.cs:53-79 | for 1 to 64 files with no exception, the summary exists iff there is a success and more than one file; it reports a count that some success reaches and none exceeds, and names exactly the successful files with that count |
| Batch.CompletedWithinWaitLimit | Program.cs:35-43 | the maps are reported only for 1 to 64 files, and more than 64 files always end with `TooManyFiles` |
| Batch.SingleFileNoSummary | Program.cs:74-79 | a run over one file never reports the maximum |
| Batch.RunTasks | Program.cs:35-43 | running every task in turn against an empty store gives the maps ProcessAll describes, or the first exception |
| Batch.CollectSuccesses | Program.cs:58-61 | the pass over the success map visits its files in listing order |
| Batch.Run | Program.cs:13-81 | the program ends as ReportOf says: no directory, no XML file, more than 64 files, an exception, or both maps with the summary |

## Left out

- Console output, the localized messages and the `Stopwatch` (Program.cs:15-16, 21, 31, 45-51, 57, 72, 76-84). `Report` carries the data the report prints. Error reasons are the two `ErrorKind` values.
- `Directory.Exists` and `Directory.GetFiles` (Program.cs:19-27). `Run` takes the listing as a parameter: `None` for a missing directory, otherwise each path with its parsed document or its parse error.
- `XmlDocument.Load` (Program.cs:121-131). It is a `LoadResult` parameter. Load failures other than `XmlException`, such as I/O errors, are not modelled.
- The XPath engine. Only the fixed path is modelled, as a tree walk. Namespaces are not modelled.
- Non-element children such as text or comments. Their `Attributes` is null, so the scan at Program.cs:155 would throw. Folder children are elements only.
- Threads, `ManualResetEvent` and `ConcurrentDictionary` thread safety (Program.cs:35-43, 104-109). Tasks run one after another in listing order.
- The iteration order of `ConcurrentDictionary` (Program.cs:48, 58) is unspecified. The successes are visited in listing order.
- Batch.Run: an exception escaping a thread-pool task ends the whole process. Other tasks may already have finished, and whichever faults first wins. The model stops at the first faulting file in listing order.
- Batch.ReportOf: with more than 64 files the work items are queued before `WaitAll` throws, so a task's own exception may end the process first. The model reports `TooManyFiles` for every such listing.
- CSharpInt.ParseInt32: culture-specific signs and trailing NUL characters accepted by `int.TryParse` are not modelled. The parser takes ASCII digits, one `+` or `-`, and the white space U+0009 to U+000D and U+0020 around them.
- Evaluator.SuccessData: `count` is an unbounded natural. In the source it is an `int`, but it never exceeds the array length.
