# CalculateSales in Dafny

A model of the branch and commodity sales tally tool
(`jp.alhinc.calculate_sales.CalculateSales`), with proofs about it.

The tool is given one directory. It does five things:

1. It loads `branch.lst` (lines `code,name`, with three-digit codes) and
   `commodity.lst` (eight alphanumeric characters per code). Each goes into
   a name map and a total map, and every total starts at 0.
2. It keeps the regular files named like `NNNNNNNN.rcd` and sorts them by
   name.
3. It demands that their serial numbers run without a gap.
4. It adds each record's amount (its third line) to the record's branch
   total and to its commodity total. Every total must stay below ten digits.
5. It writes `branch.out` and `commodity.out`, one line `code,name,total`
   per code.

The first error prints one fixed message and ends the run. Some inputs end
the run with an uncaught exception instead.

Modules:

- `JavaText`: the Java string behaviour the tool relies on.
  - `String.split(",")`, including its removal of trailing empty fields.
  - The character classes of its regular expressions.
  - Decimal parsing and printing.
  - `compareTo` order.
- `Outcomes`: the messages and exceptions that end a run.
- `Tables`: the in-memory state.
  - A directory `Entry` gives a name, whether it is a regular file, and the
    lines a `BufferedReader` would read from it.
  - `CodeTable` is a class holding the two `HashMap`s of one domain as
    fields.
  - `MapSum` is the sum of a total map.
- `DefinitionLoader`: `readFile`, a loop that fills a `CodeTable` in place.
- `RecordDiscovery`: the filter loop, `Collections.sort` (an in-place sort
  of an array) and the neighbour check.
- `Aggregation`: the per-record loop. `Step` is one round of it and `Tally`
  is the whole loop. `Aggregate` is the method that updates the total maps
  in place.
- `SummaryWriter`: `writeFile`, whose lines are returned rather than
  written.
- `CalculateSales`: `main`, as the method `Run` and the function
  `Pipeline`.

Three behaviours of the code are easy to misread; the model follows the
code:

- The record-name pattern is `^[0-9]{8}.rcd$` with an unescaped dot. Its
  ninth character may be any char except a line terminator, not just `.`.
- The third line is read (`fileContents.get(2)`) before the line count is
  checked. So a record of fewer than three lines ends the run with
  `IndexOutOfBoundsException`, and no format message is printed.
- The amount is parsed with `Long.parseLong`, which is signed. An amount
  above 2^63 - 1 matches `^[0-9]+$` but ends the run with
  `NumberFormatException`.

One behaviour is not followed: the two sums are `long` additions, which wrap
around. The model's main line (`Step`, `Tally`, `Aggregate`, `Pipeline`,
`Run`) adds exactly, the intended behaviour. The code as written is the
separate `StepAsWritten`. See "Findings" and "Left out".

## Model

| member | source | states |
|---|---|---|
| JavaText.SplitIntoTwo | src/jp/alhinc/calculate_sales/CalculateSales.java:229 | `line.split(",")` is exactly `[c, n]` iff the line is `c,n` followed by zero or more commas, with both fields comma-free and `n` non-empty |
| JavaText.SplitThree | src/jp/alhinc/calculate_sales/CalculateSales.java:280 | splitting `a,b,d` with comma-free fields and non-empty `d` gives back `[a, b, d]` |
| JavaText.Decimal | src/jp/alhinc/calculate_sales/CalculateSales.java:280 | the printed form of a non-negative total is a non-empty digit string, without a leading zero, whose value is that total |
| JavaText.JavaSplit | src/jp/alhinc/calculate_sales/CalculateSales.java:229 | `line.split(",")`: no field holds a comma, a line without a comma is its own single field, and the last field is never empty once a comma was split on |
| JavaText.DecimalValue | src/jp/alhinc/calculate_sales/CalculateSales.java:153 | the value of a digit string, as `Long.parseLong` and `Integer.parseInt` read it, is below 10 to the power of its length |
| JavaText.LongText | src/jp/alhinc/calculate_sales/CalculateSales.java:280 | the text `"" + total` appends: for a non-negative total its digits read back as the total, for a negative one a minus sign followed by digits of its magnitude |
| JavaText.NameLeTotal | src/jp/alhinc/calculate_sales/CalculateSales.java:90 | any two names are comparable in `compareTo` order |
| JavaText.NameLeAntisymmetric | src/jp/alhinc/calculate_sales/CalculateSales.java:90 | two names each ordered before the other are equal |
| JavaText.NameLeTransitive | src/jp/alhinc/calculate_sales/CalculateSales.java:90 | `compareTo` order is transitive |
| Outcomes.Message | src/jp/alhinc/calculate_sales/CalculateSales.java:30-39 | the fixed message of each failure; a per-record message starts with the record's file name |
| Tables.Lookup | src/jp/alhinc/calculate_sales/CalculateSales.java:213-219 | `new File(path, name)` finds an entry of the listing with that name, or reports that no entry has that name |
| Tables.CodeTable.constructor | src/jp/alhinc/calculate_sales/CalculateSales.java:55-62 | both maps of a domain start empty |
| DefinitionLoader.ParseDefinitionLine | src/jp/alhinc/calculate_sales/CalculateSales.java:229-233 | an accepted line yields a code matching the domain's pattern and a non-empty, comma-free name |
| DefinitionLoader.LoadDefinitions | src/jp/alhinc/calculate_sales/CalculateSales.java:227-240 | loading the lines of an existing file fails only with the domain's invalid-format message, and a success keeps name and total maps on the same keys |
| DefinitionLoader.ReadDefinitions | src/jp/alhinc/calculate_sales/CalculateSales.java:208-258 | `readFile` as a whole: it fails only with the domain's missing-file message, the unknown-error message or the domain's invalid-format message, and succeeds only when the file exists as a regular file |
| DefinitionLoader.Fill | src/jp/alhinc/calculate_sales/CalculateSales.java:238-239 | the maps after the accepted lines' `put`s keep every earlier key and keep name and total maps on the same keys |
| DefinitionLoader.DefinitionLineAccepted | src/jp/alhinc/calculate_sales/CalculateSales.java:229-233 | a definition line is accepted as code `c` and name `n` iff it reads `c,n` plus zero or more commas, `c` matches the domain's pattern, and `n` is non-empty and comma-free |
| DefinitionLoader.FirstRejected | src/jp/alhinc/calculate_sales/CalculateSales.java:227-236 | the index where the read loop stops: every earlier line is accepted and this one is not, or the end of the file |
| DefinitionLoader.LoadSucceedsIffAllAccepted | src/jp/alhinc/calculate_sales/CalculateSales.java:227-240 | a definition file loads iff every line is accepted; otherwise the domain's invalid-format message is reported |
| DefinitionLoader.FillEntries | src/jp/alhinc/calculate_sales/CalculateSales.java:238-239 | loading adds exactly the defined codes to both maps, each with total 0, and leaves every other entry unchanged |
| DefinitionLoader.FillLastWins | src/jp/alhinc/calculate_sales/CalculateSales.java:238 | a code defined on several lines keeps the name from the last of them |
| DefinitionLoader.FillKeepsPrintable | src/jp/alhinc/calculate_sales/CalculateSales.java:229-239 | every stored code and name is comma-free, and every name is non-empty |
| DefinitionLoader.LoadedTableIsZeroed | src/jp/alhinc/calculate_sales/CalculateSales.java:208-240 | after a successful load into empty maps, both maps have the same keys (exactly the defined codes), every total is 0, and every line was accepted |
| DefinitionLoader.ReadFile | src/jp/alhinc/calculate_sales/CalculateSales.java:208-258 | `readFile` passes iff the definitions load, and then the maps hold the loaded table. A missing file, an entry that is not a regular file, or a rejected line gives the matching message. After a rejection the maps keep the lines before the rejected one |
| RecordDiscovery.DotIsUnescaped | src/jp/alhinc/calculate_sales/CalculateSales.java:83 | the record-name pattern takes any ninth character but a line terminator (`00000001xrcd` passes, `00000001\nrcd` does not), and demands eight digits |
| RecordDiscovery.RecordFiles | src/jp/alhinc/calculate_sales/CalculateSales.java:81-86 | an entry is kept iff it is a regular file whose name matches the record pattern; a kept entry appears as often as in the listing, and no more entries are kept than listed |
| RecordDiscovery.SelectRecordFiles | src/jp/alhinc/calculate_sales/CalculateSales.java:81-86 | the filter loop yields exactly the selected entries, in listing order |
| RecordDiscovery.SortByName | src/jp/alhinc/calculate_sales/CalculateSales.java:90 | the array ends in name order and is a permutation of its old contents |
| RecordDiscovery.InsertIntoSorted | src/jp/alhinc/calculate_sales/CalculateSales.java:90 | one insertion step extends the sorted prefix by one element, leaves the rest alone and keeps the multiset |
| RecordDiscovery.InsertionStep | src/jp/alhinc/calculate_sales/CalculateSales.java:90 | one exchange moves the inserted entry one place left, keeps the entries before and after it in order, and keeps the multiset |
| RecordDiscovery.SortedPermutationUnique | src/jp/alhinc/calculate_sales/CalculateSales.java:90 | two name-sorted arrangements of the same entries, a name identifying its entry, are equal: the sort's result is determined |
| RecordDiscovery.Serial | src/jp/alhinc/calculate_sales/CalculateSales.java:93-94 | the serial of a record name is below 100,000,000, so `Integer.parseInt` and `latter - former` never overflow |
| RecordDiscovery.CheckConsecutive | src/jp/alhinc/calculate_sales/CalculateSales.java:92-101 | the neighbour loop accepts iff every neighbouring pair of serial numbers differs by exactly 1 |
| RecordDiscovery.ConsecutiveIffContiguous | src/jp/alhinc/calculate_sales/CalculateSales.java:92-101 | the check accepts iff the serial numbers are the first one, plus 1, plus 2, and so on; the empty list and a single file are always accepted |
| RecordDiscovery.RepeatedSerialNotConsecutive | src/jp/alhinc/calculate_sales/CalculateSales.java:92-101 | two record files with the same serial always fail the check |
| RecordDiscovery.NameOrderIsSerialOrder | src/jp/alhinc/calculate_sales/CalculateSales.java:90-94 | for record names, `compareTo` order implies serial order, and a smaller serial number implies an earlier name |
| Aggregation.Step | src/jp/alhinc/calculate_sales/CalculateSales.java:109-168 | one record never changes a name map or a key set |
| Aggregation.StepReportsFirstViolation | src/jp/alhinc/calculate_sales/CalculateSales.java:120-164 | a record of fewer than three lines crashes. Otherwise the record is tallied iff it violates none of the six rules, and when it violates some, the first rule in the source's order decides the report |
| Aggregation.StepUpdatesTwoTotals | src/jp/alhinc/calculate_sales/CalculateSales.java:157-168 | a tallied record has three lines and two known codes. It adds its amount to the branch total and the commodity total it names, and changes nothing else |
| Aggregation.StepKeepsTotalsInRange | src/jp/alhinc/calculate_sales/CalculateSales.java:157-168 | every stored total stays between 0 and 9,999,999,999 |
| Aggregation.StepAddsToBothSums | src/jp/alhinc/calculate_sales/CalculateSales.java:157-168 | a tallied record raises both the branch sum and the commodity sum by its amount |
| Aggregation.Tally | src/jp/alhinc/calculate_sales/CalculateSales.java:103-186 | the loop keeps both maps of each domain on the same keys |
| Aggregation.TallyConservesSums | src/jp/alhinc/calculate_sales/CalculateSales.java:103-186 | a completed loop raises each side's sum by the sum of all amounts. It keeps names, key sets and the ten-digit bound |
| Aggregation.TallyBalances | src/jp/alhinc/calculate_sales/CalculateSales.java:103-186 | from all-zero totals, the branch totals and the commodity totals both sum to the sum of all amounts |
| Aggregation.FailureStops | src/jp/alhinc/calculate_sales/CalculateSales.java:122-164 | once a record fails, the run ends with that record's report, whatever follows it |
| Aggregation.FirstFailingRecordDecides | src/jp/alhinc/calculate_sales/CalculateSales.java:103-186 | the loop fails iff some record is the first to fail, and that record's report is the loop's |
| Aggregation.Aggregate | src/jp/alhinc/calculate_sales/CalculateSales.java:103-186 | the in-place loop ends with the tallied maps. On a failure it reports the first failing record, and the maps hold the totals of the records before it |
| Aggregation.LongAdd | src/jp/alhinc/calculate_sales/CalculateSales.java:157-158 | a `long` sum lies in [-2^63, 2^63) and is exact when the exact sum fits |
| Aggregation.StepAsWritten | src/jp/alhinc/calculate_sales/CalculateSales.java:109-168 | the as-written step never changes a name map |
| Aggregation.AsWrittenStoresNegativeTotal | src/jp/alhinc/calculate_sales/CalculateSales.java:157-168 | the wrap-around example: with both totals at 1 and amount 9223372036854775807, the as-written step stores -2^63 in both totals, whereas the intended step reports the overflow |
| Aggregation.WrapsAt | src/jp/alhinc/calculate_sales/CalculateSales.java:157-168 | the same example, for any amount text whose value is 2^63 - 1 |
| Aggregation.AsWrittenAgreesWithoutWrap | src/jp/alhinc/calculate_sales/CalculateSales.java:157-168 | with totals in range and an amount below 2^63 - 10^10, the as-written step equals the intended step |
| SummaryWriter.TotalText | src/jp/alhinc/calculate_sales/CalculateSales.java:280 | `sales.get(key)` as text: the digits of a non-negative total, which read back as that total, and `null` for a code without a total |
| SummaryWriter.SummaryLine | src/jp/alhinc/calculate_sales/CalculateSales.java:280 | the line written for a code starts with that code and a comma |
| SummaryWriter.WriteFile | src/jp/alhinc/calculate_sales/CalculateSales.java:279-282 | `writeFile` emits one line `code,name,total` per code of the name map, each code once, in some visiting order |
| SummaryWriter.OneLinePerCode | src/jp/alhinc/calculate_sales/CalculateSales.java:279-282 | a summary has as many lines as the name map has codes, and every code has its line |
| SummaryWriter.SummaryLineParses | src/jp/alhinc/calculate_sales/CalculateSales.java:280 | a summary line splits back into its code, that code's name, and the digits of its total |
| SummaryWriter.SummaryReadsBack | src/jp/alhinc/calculate_sales/CalculateSales.java:279-282 | every line of the summary of a well-formed table reads back as a known code, its name and its total |
| SummaryWriter.DefinitionRoundTrip | src/jp/alhinc/calculate_sales/CalculateSales.java:238-239 | before any record is tallied, a code's summary line is `code,name,0` for the last line defining that code, trailing commas or not; a line written without trailing commas comes back with `,0` appended |
| CalculateSales.Pipeline | src/jp/alhinc/calculate_sales/CalculateSales.java:46-186 | a run gets to tallied tables only with one argument, both definition files loaded and consecutive record files, and the tables it ends with keep name and total maps on the same keys |
| CalculateSales.ReadDefinitionsZeroed | src/jp/alhinc/calculate_sales/CalculateSales.java:64-74 | a definition file that loads into fresh maps gives aligned, printable, all-zero tables |
| CalculateSales.PipelineConservesSums | src/jp/alhinc/calculate_sales/CalculateSales.java:46-197 | a completed run had one argument, both definitions loaded and consecutive records. Branch and commodity totals both sum to the sum of all amounts, every total stays below ten digits, and the names are the loaded ones |
| CalculateSales.SortedRecordFiles | src/jp/alhinc/calculate_sales/CalculateSales.java:77-90 | the record files of the listing come back sorted by name, as a permutation of the selected files, holding only record names; with distinct names no other arrangement is sorted |
| CalculateSales.SortedRecordsDetermined | src/jp/alhinc/calculate_sales/CalculateSales.java:77-90 | a listing has distinct names, so any two sorted arrangements of its record files are the same list |
| CalculateSales.Run | src/jp/alhinc/calculate_sales/CalculateSales.java:46-197 | `main` sorts exactly the record files into name order; for a listing with distinct names that list is the only sorted one, so the outcome is fixed by the arguments and the directory. It stops with what `Pipeline` reports, and when the run completes it writes both summaries of the final tables |

## Left out

- File I/O is not modelled. The directory is a list of entries, each with its lines already read, and the summaries are returned as lists of lines.
- The `IOException` paths are not modelled: open, read and close failures while loading, tallying or writing, each printing the unknown-error message.
- A `listFiles` result of `null` is not modelled.
- Console output is not modelled: a run returns the `Termination` that names its message or exception. `Outcomes.Message` gives the exact text of each message.
- The regular expressions are not modelled as an engine: each one is written as the predicate it denotes.
- Character comparison: `compareTo` is modelled on Dafny chars (Unicode scalar values), not on UTF-16 code units. The two orders differ only between a character above U+FFFF and one in U+E000-U+FFFF. Such characters can stand only at the ninth position of a record name, so two names they order differently share their first eight digits and so their serial. Such a directory fails the consecutiveness check in either order (`RecordDiscovery.RepeatedSerialNotConsecutive`).
- `File.compareTo` compares whole paths. Every file shares the directory prefix, so it is modelled on names.
- RecordDiscovery.SortByName: sorts by insertion, not by the library's merge sort. The stated result is the same (sorted, and a permutation), but stability is not stated because directory names are unique.
- SummaryWriter.WriteFile: states the lines for some visiting order of the codes, each code once, rather than `HashMap`'s bucket order, which depends on hash codes and capacity.
- CalculateSales.Run: the summaries are stated for some visiting order of each map, for the same reason.
- Aggregation.Step: adds exactly and is the corrected behaviour. The `long` wrap-around of the source is modelled separately in `StepAsWritten` (see "Findings").
- Aggregation.Tally: inherits the exact addition of `Step`, so on the input in "Findings" it reports the overflow where the source stores negative totals.
- Aggregation.Aggregate: adds exactly, like `Tally`, which it is proved against; it does not model the `long` wrap-around.
- CalculateSales.Run: inherits the exact addition through `Aggregate` and `Pipeline`, so on the input in "Findings" it stops with the overflow message where the source writes -9223372036854775808 to both summaries.
- CalculateSales.Pipeline: inherits the exact addition through `Tally`.
- The `int` overflow of `Integer.parseInt` on the serial and of `latter - former` cannot happen: an eight-digit serial fits in an `int`.

## Findings

| source | as written | input that shows it | evidently intended | confidence | as-written member | corrected member |
|---|---|---|---|---|---|---|
| src/jp/alhinc/calculate_sales/CalculateSales.java:157-168 | the running totals are updated with `long` additions, which wrap to a negative value when the exact sum reaches 2^63, and a negative total passes the `>= 10000000000L` check and is stored | `branch.lst` = `001,東京`, `commodity.lst` = `X0000001,Apple`, `00000001.rcd` = `001`, `X0000001`, `1`, then `00000002.rcd` = `001`, `X0000001`, `9223372036854775807`: both totals become -9223372036854775808 and the run writes them | report `合計金額が10桁を超えました`, since the true total exceeds ten digits | not executed | Aggregation.AsWrittenStoresNegativeTotal | Aggregation.StepKeepsTotalsInRange |
