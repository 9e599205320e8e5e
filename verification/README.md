# Models of the drain loop, the coverage rewriter and the value reconciler

This project models three programs of the repository and proves what they do on all inputs.

**The perf ring drain** (`PerfEvents_Test/CORE/ctest_perf_sample_callchain.c`). A consumer walks
variable-length records in eight data pages, at `data_tail % (mmap_size - page_size)`, and stops on
`data_head != data_tail`. `Records` has the byte layout and a plain linear parser, `Ring` the circular
area and the 64-bit counters, `RingDrain` the specification on record sequences, `PerfBuffer` the
program's loops over the mapped bytes, `RawLoop` the loop on the registers alone for any bytes, and
`RingProtocol` the consumer with every read of the shared area a step of its own, interleaved with a
producer. A record is whole if its size is a positive multiple of 8 that fits its field; what the loop
does is stated for all whole records, whatever their payload, and for callchain samples (`nr` and then
`nr` words) also what the printout says. The layout of a record (type, misc and size in 8 bytes) and the
number of PERF_RECORD_SAMPLE, 9, are those of the Linux perf_event.h interface. The same loop stands in
the sibling programs of that directory; only the payload they print differs.

**The lcov rewriter** (`cgroupTest/modify_coverage.py`). One pass over the lines with a flag and a
pending line number. `Coverage` has the pass, proved equal to a description of every output line by its
position only; `CoverageRecords` what a line says, character by character; `CoverageLaws` and
`CoverageFiles` what repeated rewriting does, on lines and on the text of the file; `CoverageCounts` what a
rewriting conserves.

**The expected-value reconciler** (`tool/Set_ACT_Return.py`). For each numbered test it edits the last
line of a DAT file, runs the test, and after a failure searches the result backwards for the actual
value and repairs the file. `DatFile`, `ResultSearch` and `TestNames` have the parts, `Reconciler` the
script with the variables that outlive one test, `ReconcilerLaws` what whole runs do. `Text` has the
Python string and file operations both scripts use.

Where an expected law is false of the code, the code is kept and the exact condition is proved:

- the drain prints every callchain unless a sample is cut by the end of the data area; its payload is
  read straight on, so the first cut sample is where a read leaves the mapped pages; for a sample of
  another payload, the first word read as `nr` decides;
- the overflowing 64-bit tail gives the right offsets exactly when the area size divides 2^64;
- of two rewritings of one function the last wins unless the first count holds a comma (or, on a file,
  a line end) and some line is rewritten; rewritings of two functions with counts without commas
  commute unless both would rewrite one DA record with different counts;
- of two edits of a DAT file the last wins unless the first value holds a line end, or the edit glued
  its line to an unterminated last line that begins with white space;
- the search returns nothing, not an earlier value, when the last matching record's `actual_value`
  element is empty;
- the repair equals a direct edit exactly when the test's own edit found a '%' in the last line;
  otherwise it uses what an earlier test left in `lines`, `prefix` and `last_line`, or, as in the first
  test, the script ends on an unset name; once a first edit has found a value it never does.

## Model

| member | source | states |
|---|---|---|
| Bytes.LePlace | PerfEvents_Test/CORE/ctest_perf_sample_callchain.c:91-100 | byte `i` of a field, counted from the first, is its digit of weight 256^i |
| Records.ParseOfEncoded | PerfEvents_Test/CORE/ctest_perf_sample_callchain.c:89-101 | the linear parser gives back every sequence of whole records from its bytes |
| Records.EncodeOfParsed | PerfEvents_Test/CORE/ctest_perf_sample_callchain.c:89-101 | a stream that parses is exactly the bytes of the records it parses to |
| Ring.HeaderInArea | PerfEvents_Test/CORE/ctest_perf_sample_callchain.c:29-90 | on eight pages of any page size the header at an aligned tail, overflowed or not, lies wholly inside the area |
| Ring.RegOffset | PerfEvents_Test/CORE/ctest_perf_sample_callchain.c:84-90 | the 64-bit tail register points where the unbounded counter would |
| Ring.OffsetsAreRemainders | PerfEvents_Test/CORE/ctest_perf_sample_callchain.c:29-90 | the header is looked for at the tail register modulo eight pages, and byte `i` of the unread stream lies at tail + i modulo the area |
| Ring.OverflowKeepsOffsets | PerfEvents_Test/CORE/ctest_perf_sample_callchain.c:84-100 | overflow keeps all offsets if and only if the area size divides 2^64 |
| Ring.WriteAppends | PerfEvents_Test/CORE/ctest_perf_sample_callchain.c:84-90 | bytes stored into free space follow the unread ones, which stay as they were |
| RingDrain.DrainStopsAtFault | PerfEvents_Test/CORE/ctest_perf_sample_callchain.c:89-101 | whatever the payloads, a drain passes exactly the records before the first one at which a read leaves the area, or all |
| RingDrain.DrainPrintsPassed | PerfEvents_Test/CORE/ctest_perf_sample_callchain.c:91-98 | the passed callchain records' chains are printed in full and in order, then only the uncut words of the record that faults |
| RingDrain.DrainCompletes | PerfEvents_Test/CORE/ctest_perf_sample_callchain.c:89-101 | over callchain samples a read leaves the area if and only if some sample is cut; otherwise the printout reads back as the samples' callchains, in order, and nothing else |
| RingDrain.ChainsAppend | PerfEvents_Test/CORE/ctest_perf_sample_callchain.c:91-98 | the callchains of the records are those of type 9, in order, the empty ones too |
| RingDrain.DrainInTwo | PerfEvents_Test/CORE/ctest_perf_sample_callchain.c:89-101 | draining to a record boundary and then on reports what one drain does |
| RingDrain.ChainLineAt | PerfEvents_Test/CORE/ctest_perf_sample_callchain.c:93-98 | the size line first, then entry line `k` with word `k` after the size, as many as the size says or the area holds |
| RingDrain.HeaderOf | PerfEvents_Test/CORE/ctest_perf_sample_callchain.c:89-100 | the `k`-th header met lies at the tail plus the sizes before it, modulo the area, with the type and size of record `k` |
| PerfBuffer.DrainStreamInTwo | PerfEvents_Test/CORE/ctest_perf_sample_callchain.c:87-101 | the same for the bytes in the area and whole records of any payload, for every tail and any number of wraps |
| PerfBuffer.OverrunsExactly | PerfEvents_Test/CORE/ctest_perf_sample_callchain.c:93-98 | the callchain loop at a header leaves the area if and only if the 16 bytes of header and size, or those and 8 more for each entry the size announces, reach past its end |
| PerfBuffer.FaultsExactly | PerfEvents_Test/CORE/ctest_perf_sample_callchain.c:91-98 | a record makes the drain of the bytes leave the area exactly there, if its type is 9, and nowhere otherwise |
| PerfBuffer.ChainsInBytes | PerfEvents_Test/CORE/ctest_perf_sample_callchain.c:89-101 | over callchain samples the drain of the bytes, which reads straight on, is the drain that the records alone determine |
| PerfBuffer.ChainsPrinted | PerfEvents_Test/CORE/ctest_perf_sample_callchain.c:84-101 | over callchain samples the drain of the bytes faults if and only if a sample is cut, and otherwise its printout reads back as their callchains |
| PerfBuffer.CutSampleFails | PerfEvents_Test/CORE/ctest_perf_sample_callchain.c:91-98 | in every area, a callchain sample of one entry stored 16 bytes before the end is cut: its size is printed, its entry never |
| PerfBuffer.GivenDrain | PerfEvents_Test/CORE/ctest_perf_sample_callchain.c:89-101 | given 24 bytes anywhere in an area, the stream parses to one record, its header is met at their offset, and the lines printed are two given ones if their first byte is 9 and none otherwise |
| PerfBuffer.NextRecord | PerfEvents_Test/CORE/ctest_perf_sample_callchain.c:90-100 | the linear parser's first record is what the area holds at the tail's offset, and the rest parses from where its size leads |
| PerfBuffer.StoredRecordsParse | PerfEvents_Test/CORE/ctest_perf_sample_callchain.c:84-90 | every sequence of whole records that fits can lie in the area from any position, wrapped or not, and then parses from there |
| PerfBuffer.PerfBuffer.constructor | PerfEvents_Test/CORE/ctest_perf_sample_callchain.c:63-87 | a mapped buffer for any such sequence and any aligned position, on which the drain may be called |
| PerfBuffer.PerfBuffer.PrintSample | PerfEvents_Test/CORE/ctest_perf_sample_callchain.c:93-98 | whatever follows the header, the callchain loop prints the size and then that many words in order, and leaves the area exactly if there are fewer |
| PerfBuffer.PerfBuffer.HandleEvent | PerfEvents_Test/CORE/ctest_perf_sample_callchain.c:90-100 | one round reads the type and size of the record at the tail and runs the callchain loop on it if it is a sample |
| PerfBuffer.PerfBuffer.Drain | PerfEvents_Test/CORE/ctest_perf_sample_callchain.c:84-101 | on whole records of any payload, from any aligned tail, with 64-bit registers, the loop terminates, meets the headers the linear parser finds, each at its boundary, prints what the specification says of the bytes, and without a fault ends with data_tail equal to data_head and nothing unread; over callchain samples it faults if and only if one is cut, and otherwise its lines read back as their callchains |
| RawLoop.StopsOnlyOnHit | PerfEvents_Test/CORE/ctest_perf_sample_callchain.c:89-100 | for any bytes, before the counter runs through 64 bits, the != loop stops if and only if its sizes lead to the head itself |
| RawLoop.WholeRecordsHit | PerfEvents_Test/CORE/ctest_perf_sample_callchain.c:89-100 | on whole records of any payload the loop's positions are the record boundaries in order, the last of them the head |
| RawLoop.OneRawRound | PerfEvents_Test/CORE/ctest_perf_sample_callchain.c:89-100 | for any bytes a round adds the two size bytes of the header at the tail to it, modulo 2^64 |
| RawLoop.StopsAfterEveryRecord | PerfEvents_Test/CORE/ctest_perf_sample_callchain.c:89-100 | there the registers meet after exactly as many rounds as there are records, and not before |
| RawLoop.ZeroSizeNeverStops | PerfEvents_Test/CORE/ctest_perf_sample_callchain.c:89-100 | a zero size away from the head keeps the loop there for good |
| RingProtocol.StepKeepsInv | PerfEvents_Test/CORE/ctest_perf_sample_callchain.c:84-101 | every step of the producer or of the word-by-word consumer keeps the invariant that ties registers and bytes to the records appended, and over callchain samples the printout too |
| RingProtocol.EveryInterleaving | PerfEvents_Test/CORE/ctest_perf_sample_callchain.c:84-101 | in every reachable state the unread bytes are the whole records appended and not passed and fit the area; over callchain samples the printout tells a prefix of the records appended, and a read leaves the area only at a cut sample |
| RingProtocol.ProducerCanFill | PerfEvents_Test/CORE/ctest_perf_sample_callchain.c:84-101 | in every state the invariant allows, any whole records that fit the free space can be appended without disturbing the consumer |
| RingProtocol.EveryDrain | PerfEvents_Test/CORE/ctest_perf_sample_callchain.c:84-101 | the consumer is never stuck, and a drain that ends has passed exactly the records its snapshot of data_head covers |
| RingProtocol.DrainLength | PerfEvents_Test/CORE/ctest_perf_sample_callchain.c:84-101 | the consumer steps of a drain are fixed by the callchain records its snapshot covers, however the producer interferes |
| RingProtocol.DrainIsDrained | PerfEvents_Test/CORE/ctest_perf_sample_callchain.c:84-101 | from a snapshot taken in any reachable state, every interleaving ends the drain with the lines, the records passed and the fault that the drain of the covered records determines |
| RingProtocol.WholeDrain | PerfEvents_Test/CORE/ctest_perf_sample_callchain.c:84-101 | a drain begun in any reachable state that ends has passed every record appended when it loaded data_head, and over callchain samples the whole printout reads back as their callchains |
| Coverage.RewriteLines | cgroupTest/modify_coverage.py:11-38 | the pass rewrites an FNDA record if and only if it names the function and an FN record of it came before with no FNDA record of it between, and a DA record if and only if the latest such FN record gave its number and no DA record with that number lies between; all other lines stay |
| CoverageLaws.FndaReadsBack | cgroupTest/modify_coverage.py:19-23 | a printed FNDA record is matched by a name if and only if that is the printed name, stripped, and neither name nor count holds a comma |
| CoverageLaws.DaReadsBack | cgroupTest/modify_coverage.py:28-32 | a printed DA record gives its number back if and only if the count holds no comma |
| CoverageLaws.MatchesReadBack | cgroupTest/modify_coverage.py:12-31 | whatever name or number a line matches is one that printed records give back |
| CoverageLaws.LastWriteWins | cgroupTest/modify_coverage.py:3-41 | rewriting with one count and then another is rewriting with the other, if the first holds no comma or no line is rewritten |
| CoverageLaws.LastWriteWinsExactly | cgroupTest/modify_coverage.py:3-41 | that condition is exact for every list of lines |
| CoverageLaws.UncontestedCommute | cgroupTest/modify_coverage.py:3-41 | rewritings of different functions commute, whatever the counts, if no DA record is rewritten by both |
| CoverageLaws.CommuteExactly | cgroupTest/modify_coverage.py:3-41 | with counts without commas they commute if and only if no DA record is contested or the counts are equal |
| CoverageLaws.DisjointNumbersUncontested | cgroupTest/modify_coverage.py:12-32 | no DA record is contested if no line number is recorded for both functions |
| CoverageLaws.CommaCountFails | cgroupTest/modify_coverage.py:19-27 | a two-line file on which a count with a comma cannot be rewritten away |
| CoverageLaws.ContestedFails | cgroupTest/modify_coverage.py:28-36 | a three-line file on which the order of two rewritings matters |
| CoverageCounts.LinesKeepKind | cgroupTest/modify_coverage.py:11-38 | every line keeps its position and record kind, and changes only if it is hit |
| CoverageCounts.FndaBalance | cgroupTest/modify_coverage.py:12-27 | at every prefix the FN records of the function are the rewritten FNDA records, plus the flag still standing, plus the FN records met while it stood |
| CoverageCounts.DaBalance | cgroupTest/modify_coverage.py:12-36 | at every prefix they are the rewritten DA records, plus the number still pending, plus the FN records that replaced a pending number |
| CoverageFiles.InfoFile.ModifyCoverage | cgroupTest/modify_coverage.py:3-41 | the file's text afterwards is that of its lines rewritten by position |
| CoverageFiles.Reread | cgroupTest/modify_coverage.py:8-41 | with a count on one line a second rewriting meets exactly the lines the first one wrote |
| CoverageFiles.TextLastWriteWinsExactly | cgroupTest/modify_coverage.py:3-41 | on a file the last of two rewritings wins for every second count if and only if the first holds neither comma nor line end, or no line is rewritten |
| CoverageFiles.TextUncontestedCommute | cgroupTest/modify_coverage.py:3-41 | on a file, rewritings of different functions with any counts on one line commute if no DA record is contested |
| CoverageFiles.TextCommuteExactly | cgroupTest/modify_coverage.py:3-41 | on a file, with counts on one line and without commas, they commute if and only if no DA record is contested or the counts are equal |
| CoverageRecords.FieldsExactly | cgroupTest/modify_coverage.py:14-16 | a line has two fields if and only if it is two texts without commas around one comma |
| CoverageRecords.FnRecord | cgroupTest/modify_coverage.py:12-18 | which function an FN record of two fields is of, and the number it gives, from its text |
| CoverageRecords.FndaRecord | cgroupTest/modify_coverage.py:19-22 | which function an FNDA record of two fields names |
| CoverageRecords.DaRecord | cgroupTest/modify_coverage.py:28-31 | the number of a DA record of two fields, from its text |
| CoverageRecords.OtherLines | cgroupTest/modify_coverage.py:11-38 | only lines with the tag and exactly one comma say anything |
| CoverageRecords.HitCarriesCount | cgroupTest/modify_coverage.py:19-38 | a rewritten record is its tag, the count, and the name or number it had; without commas the count is what its field reads back as; a line that is not hit stays |
| CoverageRecords.OneFunctionsFile | cgroupTest/modify_coverage.py:3-41 | on the tracefile of one function with two DA records of its line, for any name, number and counts, exactly the FNDA record and the first DA record get the count |
| Text.StripMeaning | cgroupTest/modify_coverage.py:15-16 | strip takes white space and only that off both ends, and leaves none there |
| Text.WhiteCharacters | cgroupTest/modify_coverage.py:15-16 | the white characters one by one; every character from '!' to '~' is visible |
| Text.StripsToVisible | cgroupTest/modify_coverage.py:15-16 | strip gives exactly the text with visible ends that stands between blanks, tabs and line ends |
| Text.JoinSplit | cgroupTest/modify_coverage.py:14-16 | the parts of a split joined by the separator are the text |
| Text.PartsFree | cgroupTest/modify_coverage.py:14-16 | no part of a split holds the separator, and there is one part if and only if the text does not hold it |
| Text.WriteRead | cgroupTest/modify_coverage.py:8-41 | writing the lines of a text gives the text back |
| Text.ReadWrite | cgroupTest/modify_coverage.py:8-41 | reading written lines gives the lines back |
| ResultSearch.GetTrueValueFromXml | tool/Set_ACT_Return.py:74-94 | the reversed loop with its early returns computes the search, which OneMoreRecord fixes record by record |
| ResultSearch.TrueValueIsLast | tool/Set_ACT_Return.py:79-94 | the result is the stripped text of the last record in document order with the key and an actual value element, nothing if there is none |
| ResultSearch.OneMoreRecord | tool/Set_ACT_Return.py:79-94 | a later record with the key makes its text, less the blanks around it, the value, or leaves none if its element is empty; any other later record changes nothing |
| ResultSearch.NoTrueValue | tool/Set_ACT_Return.py:79-94 | it is nothing if and only if there is no such record or the last one's element is empty |
| ResultSearch.EmptyElementHides | tool/Set_ACT_Return.py:84-92 | two records on which an empty element hides an earlier value |
| TestNames.ValueOfNumberStr | tool/Set_ACT_Return.py:124 | the formatted index reads back as the index, and bounds it by its length |
| TestNames.NumberStrWidth | tool/Set_ACT_Return.py:124 | indices are padded to three digits and no further |
| TestNames.SomePatterns | tool/Set_ACT_Return.py:124-126 | the names and patterns of some indices, written out |
| TestNames.ContainsExactly | tool/Set_ACT_Return.py:134 | a line contains a pattern if and only if it is a text, the pattern and a text |
| TestNames.OnePatternAtPlace | tool/Set_ACT_Return.py:124-134 | at one place of a line the pattern of at most one test can stand |
| DatFile.EditedShape | tool/Set_ACT_Return.py:149-203 | every edit that writes leaves kept lines and one value line, and only the value in it depends on the value |
| DatFile.EditReplaces | tool/Set_ACT_Return.py:177-203 | in every text whose last line has a '%' the edit replaces that line by what stands before the '%', less the blanks in front, and the value, and keeps all before it |
| DatFile.EditAppends | tool/Set_ACT_Return.py:149-195 | to every other text, empty or not, and to a missing file it adds the line of the numbers, the index and the value; without numbers it writes nothing |
| DatFile.EditedAgain | tool/Set_ACT_Return.py:149-203 | a second edit keeps the same lines and finds the key the first one left, less leading white space |
| DatFile.EditLastWinsExactly | tool/Set_ACT_Return.py:149-203 | over missing, empty, unmarked and marked files the last of two edits wins for every second value if and only if nothing is written, or the first value is on one line and is not glued to an indented last line |
| DatFile.EditTwiceFails | tool/Set_ACT_Return.py:185-195 | a file on which two edits differ from the second alone |
| Reconciler.Script.EditDat | tool/Set_ACT_Return.py:138-204 | the edit for a matching XML file changes that DAT file as specified and leaves the script's variables as specified |
| Reconciler.Script.EditMatches | tool/Set_ACT_Return.py:128-211 | every XML file with the test's name is edited for once, in order, and the test is found if and only if some line of some XML file is a text, the pattern and a text |
| Reconciler.Script.RunTest | tool/Set_ACT_Return.py:213-238 | the run and, after a failure, the search, the repair and the second run, or the end of the script on an unset name; the test runs twice if the first run failed and the result gives a value, and otherwise once with the files as they were |
| Reconciler.Script.Reconcile | tool/Set_ACT_Return.py:122-240 | the loop terminates in the state the specification of the whole loop gives |
| Reconciler.FoundBound | tool/Set_ACT_Return.py:122-134 | a test's index is below the power of ten of the longest line, so the loop ends |
| Reconciler.FoundExactly | tool/Set_ACT_Return.py:122-134 | a test is found if and only if its name element stands anywhere in any line of any XML file |
| Reconciler.TestAdds | tool/Set_ACT_Return.py:213-238 | what one test adds to the commands: its first run, and its second if and only if the first failed and the result gives a value; without that the files stay |
| Reconciler.ActualOf | tool/Set_ACT_Return.py:222-225 | the value is the text of the last record of the DAT file's own result whose command is the key |
| ReconcilerLaws.RunsGaplessStretch | tool/Set_ACT_Return.py:122-240 | the loop runs each test of the gapless stretch of existing tests once, in order, and ends at the first that does not exist or the one that ends the script |
| ReconcilerLaws.NoMoreTestsThanPlaces | tool/Set_ACT_Return.py:122-240 | each test processed has a place of its own in the XML files |
| ReconcilerLaws.LastMatchEdited | tool/Set_ACT_Return.py:130-204 | the edit for the last matching XML file comes after those for all earlier ones, and non-matching ones have none |
| ReconcilerLaws.EditOfFile | tool/Set_ACT_Return.py:138-204 | an edit changes the DAT file of the XML file's number to its edited text, no other file, and runs nothing |
| ReconcilerLaws.UnmarkedVars | tool/Set_ACT_Return.py:149-195 | what the variables hold after the edit of a missing file, an empty one, and one without a '%' in its last line |
| ReconcilerLaws.MarkedVars | tool/Set_ACT_Return.py:177-203 | and after the edit of one with a '%' |
| ReconcilerLaws.TestRepairs | tool/Set_ACT_Return.py:218-236 | with every variable set, a failed run whose result gives a value leaves the lines of the last edit with the prefix and the value as the last one, and runs the test again |
| ReconcilerLaws.RepairIsEditExactly | tool/Set_ACT_Return.py:177-230 | after a failed run the repair writes what one edit with the actual value writes, whatever the variables held, if and only if the last line had a '%'; without one, the first test's repair ends the script |
| ReconcilerLaws.StaleRepairFails | tool/Set_ACT_Return.py:165-230 | after the edit of an empty file the repair writes an earlier test's line, not the one the edit would |
| ReconcilerLaws.FirstTestCrashes | tool/Set_ACT_Return.py:149-230 | from unset variables the first test ends the script if and only if its run fails and its file is not named, missing, empty, or has no '%' in its last line while the result gives a value |
| ReconcilerLaws.EditSets | tool/Set_ACT_Return.py:138-204 | an edit that finds a value sets every variable the repair uses, and no edit unsets one |
| ReconcilerLaws.NeverCrashesOnceSet | tool/Set_ACT_Return.py:122-240 | once every variable is set the script never ends on an unset name, from any index and whatever the XML files, the DAT files and the results |
| ReconcilerLaws.TidyTestSettles | tool/Set_ACT_Return.py:128-236 | a test with one XML file and a '%' in its DAT file's last line never ends the script, changes only that file, and runs twice if and only if its first run failed and the result gives a value |
| ReconcilerLaws.TidyTestsSettle | tool/Set_ACT_Return.py:122-240 | a whole run over such tests processes them all and ends; each DAT file ends as its old text with one value replaced, as settled by the first run of its own test that the loop made, which saw the earlier tests' files settled, its own with the new value and the rest untouched: the new value if that run passed, else the actual value if there is one; every other file is untouched |
| ReconcilerLaws.TidyTestsRun | tool/Set_ACT_Return.py:122-240 | over such tests the whole script leaves exactly the files and has run exactly the commands of a simple run that knows neither the script's variables nor its search for XML files |

## Left out

- Kernel modules, notifier programs, generated files and shell scripts: they call kernel code that is not part of this model.
- System calls, mmap, ioctl and the sampling itself: the kernel's appending of a record is a step that writes a whole record into free space in one go.
- Memory ordering: a read sees the latest write; the barrier after the load of data_head has no counterpart.
- What lies behind the data area: a read that leaves it ends the drain as a fault, with the lines printed so far.
- PerfBuffer.PerfBuffer.Drain: asks that the bytes between tail and head are whole records; for other bytes only the members of RawLoop say when the loop stops.
- RingProtocol.EveryInterleaving: says of the printout only what holds when all samples appended are callchain samples; of others, what the loop takes for entries may be bytes the producer is overwriting.
- RingProtocol.DrainLength: asks for callchain samples for the same reason.
- The aux, stack, register and address payloads the sibling programs print.
- Text decoding and the translation of '\r' to line ends when a file is read: texts are sequences of characters whose lines end in '\n'.
- CoverageLaws.CommuteExactly: asks for counts without commas; for other counts only the direction of UncontestedCommute is stated, since the order then depends on which later DA records have the number left pending.
- CoverageFiles.TextCommuteExactly: the same, and asks for counts on one line.
- DatFile.EditLastWinsExactly: asks that unit, subprogram and index hold no '%' and no line end, as the numbers the XML files give do.
- The search for environment files, the parsing of param.xml and of the result XML, the regular expressions for unit, subprogram and file number, and console output: their results are given values.
- Reconciler.Script.Reconcile: the list of XML files and their lines is fixed during a run, and reading or writing a file never fails.
- ReconcilerLaws.TidyTestsSettle: asks for one XML file per test, a '%' in the last line and a DAT file of its own; what happens outside that is in RepairIsEditExactly and FirstTestCrashes.
- Insert_stub.py, extract_undef.py, test_case.py, Set_Return.py and perf_json_output_lint.py: regular expressions, sorting and JSON calls, or an earlier form of the modelled script.
