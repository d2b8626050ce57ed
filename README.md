# 1brc aggregation engine in Dafny

This project models the scan-and-aggregate engine of a C# solution to the "one billion row
challenge". The program memory-maps a text file of `station;temperature\n` lines and splits it
into one chunk per processor (`GetChunks`). It scans each chunk into a per-chunk table from
station name to `ResultData` statistics (`GetResult`), working in parallel. It merges the tables
(`AggregateResult` through PLINQ's `Aggregate`), orders the result by name with an ordinal
comparison and prints it as `{name=min/mean/max, ...}` (`PrintResults`). Station names are
`DictionaryKey` views into the mapping; the key type has its own equality and hash.

The modules follow the program's structure:

- `Bytes`: the mapped file as a byte sequence, and `Span.IndexOf`.
- `Accumulators`: the `ResultData` struct and its two `Calculate` overloads.
- `Keys`: `DictionaryKey`'s `Value`, `Equals`, `Equals(object)` and `GetHashCode`.
- `Tables`: `Dictionary<DictionaryKey, ResultData>` as a class with a map field, plus `CollectionsMarshal.GetValueRefOrAddDefault`.
- `ChunkPlanner`: `GetChunks`.
- `ChunkScanner`: `GetResult`.
- `Merger`: `AggregateResult`.
- `Formatter`: the ordinal `OrderBy` and `PrintResults`.
- `Pipeline`: the body of `Main`, that is Select, Aggregate, OrderBy and print.
- `Coverage`: how the chunks of a plan together visit the lines of the file, compared with
  a separate definition of the file's lines.

Each loop of the source is a method with a loop, proved equal to a specification function. The
behaviour of the whole engine is then proved about those functions: per station, per chunk and
for the merged result.

The model follows the code as written. Where the code does something other than what one
would expect of a 1brc solution, the model does what the code does and a lemma shows it:

- A chunk that is not the last stops just before the `'\n'` found in its 64-byte lookahead
  window, so the next chunk starts on that `'\n'`. `GetResult` visits it as an empty line, which
  is skipped. See `UncutChunkEnd` and `BoundaryNewLineSkipped`.
- When the lookahead window holds no `'\n'`, `IndexOf` gives -1 and the chunk stops one byte
  short of its target size.
  - With one processor the window starts at the end of the file, so the single chunk is
    (0, fileLength - 1) (`SingleChunkMissesLastByte`). Its first window stops before the last
    byte, so a file whose only `'\n'` is its last byte yields an empty result
    (`OneProcessorLosesOnlyLine`). Later windows run past the chunk's end, so a file of several
    lines ending in `'\n'` is folded completely (`TwoLinesOnOneProcessor`).
  - A file shorter than the processor count has a target size of 0. When its first 64 bytes
    hold no `'\n'`, the first chunk has length -1 and the second starts at -1. See
    `ShortFileGivesNegativeLength`. When they hold one, at index t, the plan is (0, t) followed
    by empty chunks (t, 0). See `ShortFileWithNewLine`. The result is then empty
    (`ShortFileFoldsNothing`).
- No line that starts after the end of the last chunk is visited. The line that ends on a
  `'\n'` at that end still is, because the scanner's window runs `v.length` bytes from the
  cursor, past the chunk's end (`LastChunkEndsOnFinalNewLine`). The last chunk reaches the end
  of the file only when the planner cuts it there. With one processor that never happens. With
  more processors it does not happen when the lookahead indexes of the chunks add up to less
  than `fileLength % chunkCount`. A final line without a `'\n'` is never folded, because the
  scanner stops when `IndexOf` finds no `'\n'`.
- The scanner searches each window over `(int)v.length` bytes from the cursor. From the first
  chunk's start that window ends just before the chunk's end. When the first chunk is not cut
  and its first line ends exactly where the chunk ends, the window holds no `'\n'`, so the
  first chunk visits nothing. Every later chunk starts after that line, so it is never folded.
  See `LongFirstLineIsLost`. For "abc;1\nx;2\n" on two processors the plan is (0, 5), (5, 4),
  and only "x;2" is visited (`LongFirstLineExample`). In a short file with a `'\n'` in its
  first 64 bytes (see above), the first chunk misses its `'\n'` in the same way and the other
  chunks are empty, so the result is empty (`ShortFileFoldsNothing`).
- Min and Max start from `default(ResultData)`, which is all zeros, not from the first reading.
  Readings 12.0 and 14.0 leave Min at 0.0. See `FirstObservationStartsFromZero`.
- `Equals(object)` compares its argument with itself, so it holds for every boxed key. The
  dictionary uses the typed `Equals` and is not affected.

For a file with at least one byte per processor, three conditions make the chunks split the
file at line boundaries (`SplitsAtLines`): every chunk ends on a `'\n'` or at the end of the
file, no `'\n'` follows the end of the last chunk, and the first chunk holds a `'\n'` before
its end. Under them the chunks together fold every line of the file exactly once, in file
order, and the merged result is the statistics of the whole file (`PlanCoversFile`,
`ResultIsFileStatistics`). An uncut chunk whose window found a `'\n'` ends on it, so a plan in
which every uncut chunk found one and the last chunk is cut meets the first two conditions
(`WindowsFindNewLines`). Three plans meet all three: "a;1\nb;2\nc;3\n" on two processors,
planned as (0, 7), (7, 5) (`ThreeLinesOnTwoProcessors`); "a;1\nb;2\n" on one processor,
planned as (0, 7) (`TwoLinesOnOneProcessor`); and "a;1\nbb\nc;3\n" on two processors, planned
as (0, 6), (6, 4), whose last chunk is not cut and ends on the final `'\n'`
(`LastChunkEndsOnFinalNewLine`).

## Model

Some definitions only compute a value and carry no contract of their own. Each is specified by
the rows about it:

- `GetHashCode` by `HashOfEqualReads`, `EqualKeysHashAlike` and `EmptyKeysCanHashApart`.
- `IsPlan` by `GetChunks`, `PlanIsUnique`, `PlanOffsets` and `PlanInBounds`.
- `ChunkLines` by `ChunkLinesShape` and `ChunkLinesAreFileLines`.
- `ScanChunk` by `ScanChunkPerKey`, `ScanChunkCount` and `GetResult`.
- `MergeTables` by `MergeTablesEntries` and the other `Merger` lemmas.
- `OrderByKey` by `OrderByKeyHead`, `OrderByKeyLength`, `OrderByKeyEntries`, `OrderByKeyCovers` and `OrderByKeySorted`.
- `Output` by `PrintResults`, `EmptyOutput` and `SingleEntryOutput`.
- `ScanAll` by `SelectResults`.
- `FoldTables` by `AggregateAll`, `FoldTablesPermutation` and `FoldTablesConcat`.

| member | source | states |
|---|---|---|
| Bytes.IndexOf | Program.cs:64-65 | The result is -1 exactly when the window holds no such byte. Otherwise it is the window-relative index of the first occurrence. |
| Bytes.IndexOfIsFirst | Program.cs:89 | Any position in the window that holds the byte, with none before it, is the index IndexOf reports. |
| Accumulators.ResultData.CalculateValue | Program.cs:144-152 | Count goes up by one and Sum by the value. On an ordered accumulator, Min and Max become the min and max of the old bound and the value, and the value lies between them. |
| Accumulators.ResultData.CalculateData | Program.cs:154-162 | Min is the smaller Min and Max the larger Max. Sum and Count add. The merge of two ordered accumulators is ordered. |
| Accumulators.Accumulate | Program.cs:144-152 | Folding readings adds their number to Count and their total to Sum. From an ordered start it keeps Min <= every reading <= Max, and each bound is the start's bound or one of the readings. |
| Accumulators.AccumulateAppend | Program.cs:144-152 | Folding a concatenation of readings is folding the first part, then the second. |
| Accumulators.CalculateDataCommutes | Program.cs:154-162 | The merge is commutative. |
| Accumulators.CalculateDataAssociates | Program.cs:154-162 | The merge is associative. |
| Accumulators.DefaultIsNeutral | Program.cs:154-162 | Merging in default(ResultData) changes nothing exactly when Min <= 0 <= Max. |
| Accumulators.AccumulateFromDefault | Program.cs:104-105 | An entry that starts from the default is ordered, covers zero and counts its readings. |
| Accumulators.CalculateDataAccumulate | Program.cs:144-162 | Merging into an accumulation equals accumulating onto the merge. |
| Accumulators.MergeOfAccumulations | Program.cs:154-162 | Merging the statistics of two runs of readings, each started from the default, gives the statistics of the concatenated run. |
| Accumulators.FirstObservationStartsFromZero | Program.cs:104-105 | Readings 12.0 and 14.0 give Min 0.0, Max 14.0, Sum 26.0 and Count 2. |
| Keys.Value | Program.cs:167-171 | The view has the key's length, and its i-th byte is the byte i places after the pointer. An empty key views no bytes. |
| Keys.Equals | Program.cs:173-176 | The typed Equals holds exactly when the two viewed byte sequences are equal. |
| Keys.EqualsIsEquivalence | Program.cs:173-176 | The typed Equals is reflexive, symmetric and transitive. |
| Keys.EqualsObject | Program.cs:178-181 | Equals(object) holds exactly when the argument is a boxed DictionaryKey, whatever the receiver. |
| Keys.EqualsObjectDisagreesWithEquals | Program.cs:173-181 | Two keys with different bytes are unequal by the typed Equals but equal by Equals(object). |
| Keys.HashOfEqualReads | Program.cs:183-191 | The hash depends only on the length and on the one or four bytes it reads. |
| Keys.EqualKeysHashAlike | Program.cs:173-191 | Non-empty keys that are equal by the typed Equals have readable, equal hashes. |
| Keys.EmptyKeysCanHashApart | Program.cs:183-191 | Two empty keys with real pointers are equal, yet their hashes read the differing bytes after them. |
| Tables.Table.constructor | Program.cs:79 | A new table is empty. |
| Tables.Table.GetValueRefOrAddDefault | Program.cs:104 | Reports whether the key was present, adds a default entry when it was not, changes nothing else, and returns the slot's value. |
| Tables.Table.Store | Program.cs:105 | A write through the ref replaces that one entry. |
| Tables.CountAfterUpdate | Program.cs:105 | Replacing an entry changes the table's total count by the change in that entry's count. |
| ChunkPlanner.GetChunks | Program.cs:55-75 | The result is the plan: exactly chunkCount chunks. The first starts at 0, each next one where the previous ended, each is sized by the lookahead rule, and none passes the end of the file. |
| ChunkPlanner.PlannedAt | Program.cs:63-70 | A chunk built by the lookahead rule never passes the end of the file and is shorter than its target size plus the 64-byte lookahead. |
| ChunkPlanner.PlanIsUnique | Program.cs:55-75 | Two plans for the same file and processor count are equal. |
| ChunkPlanner.PlanOffsets | Program.cs:61-73 | Every chunk of a plan starts and ends no later than the end of the file. With a target size of at least one byte, offsets and lengths are non-negative. |
| ChunkPlanner.PlanInBounds | Program.cs:55-75 | With at least one byte per processor, every chunk lies inside the file. |
| ChunkPlanner.UncutChunkEnd | Program.cs:63-72 | A chunk that ends before the end of the file either ends at the first '\n' of its window, that '\n' excluded, or stops one byte short of its target when the window has none. The next chunk starts where it ends. |
| ChunkPlanner.CutChunkEndsAtEndOfFile | Program.cs:67-70 | A chunk the planner cuts ends exactly at the end of the file. |
| ChunkPlanner.SingleChunkMissesLastByte | Program.cs:55-75 | With one processor the plan is the single chunk (0, length - 1). |
| ChunkPlanner.ShortFileGivesNegativeLength | Program.cs:57-72 | A file shorter than the processor count, with no '\n' in the window, gets a first chunk of length -1, and the second chunk starts at -1. |
| ChunkPlanner.ShortFileWithNewLine | Program.cs:57-72 | A file shorter than the processor count whose first 64 bytes hold a '\n' at index t gets the plan (0, t) followed by empty chunks (t, 0). |
| ChunkScanner.ChunkLinesShape | Program.cs:81-110 | The lines the cursor visits start at the cursor and follow one another. Each starts in the chunk and ends at the first '\n' after its start, within the span. The loop stops only past the chunk end or when no '\n' is left. |
| ChunkScanner.LineKey | Program.cs:100-102 | The key of a folded line is valid. Its length is the delimiter index, and its pointer is null exactly when the name is empty. |
| ChunkScanner.NameOf | Program.cs:96-102 | The name is the bytes before the first ';' of the line. It holds no ';' and is followed by the ';'. |
| ChunkScanner.LineKeyViewsName | Program.cs:100-102 | The key the scanner builds views exactly the station name. |
| ChunkScanner.ValueBytes | Program.cs:103 | The parser gets the bytes after the ';' up to and including the '\n', so the line is name, ';', then those bytes. |
| ChunkScanner.Step | Program.cs:94-108 | An empty line, or one without a ';', leaves the table alone. A folded line updates only its station's entry, the default or the old entry with the value folded in, and adds one to the count. |
| ChunkScanner.FoldLinesPerKey | Program.cs:81-110 | After the lines, each station's entry is its old entry with that station's readings folded in, in order. A station has an entry exactly when it had one or has a reading. |
| ChunkScanner.FoldLinesCount | Program.cs:81-110 | Folding the lines adds one observation per folded line to the total count. |
| ChunkScanner.ScanChunkPerKey | Program.cs:77-112 | In the per-chunk table, each entry is the default with the station's readings in the chunk folded in. A station has an entry exactly when some line names it. |
| ChunkScanner.ScanChunkCount | Program.cs:77-112 | The per-chunk table counts one observation per folded line. |
| ChunkScanner.BoundaryNewLineSkipped | Program.cs:84-94 | A chunk that starts on a '\n' visits it as an empty line first. That line is not folded, so the table is that of the lines after it. |
| ChunkScanner.NoNewLineFoldsNothing | Program.cs:89-93 | A chunk whose span holds no '\n' visits no line and gives an empty table. |
| ChunkScanner.ChunkLinesUnfold | Program.cs:83-109 | One round of the cursor is one Step followed by the remaining lines from just past the '\n'. |
| ChunkScanner.StoreIsStep | Program.cs:100-105 | The source's key, parsed value and write-back together make exactly one Step. |
| ChunkScanner.UpdateAfterDefault | Program.cs:104-105 | Writing through the ref overwrites any default that GetValueRefOrAddDefault added. |
| ChunkScanner.FoldLine | Program.cs:94-108 | Storing one visited line into the table is exactly one Step. |
| ChunkScanner.GetResult | Program.cs:77-112 | Returns a fresh table whose entries are the chunk's scan, ScanChunk. |
| Merger.MergeTablesEntries | Program.cs:38-53 | The merged keys are the union. A key in both tables is merged with Calculate(ResultData); a key in one table keeps its entry. |
| Merger.MergeOneMore | Program.cs:40-51 | Merging one more entry of the current table is one round of the loop. |
| Merger.AggregateResult | Program.cs:38-53 | Returns acum, whose entries become the merge of its old entries with the entries the current table had on entry. This holds in any enumeration order, and also when current is acum. |
| Merger.MergeCommutes | Program.cs:38-53 | Merging tables is commutative. |
| Merger.MergeAssociates | Program.cs:38-53 | Merging tables is associative. |
| Merger.MergeCountsAdd | Program.cs:38-53 | Per key, the merged count is the sum of the two counts. |
| Merger.MergeTotalCount | Program.cs:38-53 | The merged table holds every observation of both tables. |
| Merger.MergePerKey | Program.cs:38-53 | Merging two tables that hold two runs of readings for a station gives that station the statistics of the concatenated run. |
| Formatter.BelowReflexive | Program.cs:34 | The byte-wise ordinal order is reflexive. |
| Formatter.BelowAntisymmetric | Program.cs:34 | The byte-wise ordinal order is antisymmetric. |
| Formatter.BelowTransitive | Program.cs:34 | The byte-wise ordinal order is transitive. |
| Formatter.BelowTotal | Program.cs:34 | Any two names are ordered one way or the other. |
| Formatter.LeastExists | Program.cs:34 | Every non-empty set of names has a least name. |
| Formatter.LeastIsUnique | Program.cs:34 | The least name is unique. |
| Formatter.OrderByKeyHead | Program.cs:34 | The ordered listing starts with the least name and its entry, followed by the listing of the rest. |
| Formatter.OrderByKeyLength | Program.cs:34 | The listing has one element per table entry. |
| Formatter.OrderByKeyEntries | Program.cs:34 | Every element of the listing is a table entry with its statistics. |
| Formatter.OrderByKeyCovers | Program.cs:34 | Every name of the table appears in the listing. |
| Formatter.OrderByKeySorted | Program.cs:34 | The names in the listing are strictly ascending in ordinal order. |
| Formatter.OrderExample | Program.cs:34 | "Abu Dhabi" is listed before "Tokyo". |
| Formatter.RenderedIsJoin | Program.cs:120-128 | After i entries, the loop's text is the first i renderings joined by ", ". A trailing ", " follows exactly when entries remain. |
| Formatter.PrintResults | Program.cs:114-132 | The text is "{", then every entry's rendering joined by ", " with no trailing separator, then "}". |
| Formatter.EmptyOutput | Program.cs:114-132 | An empty result prints as "{}". |
| Formatter.SingleEntryOutput | Program.cs:114-132 | A single entry prints with no separator. |
| Pipeline.FoldTablesRemove | Program.cs:32-33 | Any one of the tables can be merged last without changing the result. |
| Pipeline.SwapLast | Program.cs:32-33 | The last two merges can be swapped. |
| Pipeline.FoldTablesConcat | Program.cs:30-33 | Folding a concatenation of table sequences is merging the folds of its two parts. |
| Pipeline.FoldTablesPermutation | Program.cs:30-33 | The seedless Aggregate gives the same table for any arrival order of the per-chunk tables. |
| Pipeline.FoldTablesPerKey | Program.cs:30-33 | When each table holds a run of readings for a station, the merged entry is the default with all runs folded in. The station is present exactly when some run is non-empty. |
| Pipeline.FoldTablesTotal | Program.cs:30-33 | The merged table counts the sum of the tables' counts. |
| Pipeline.AggregatePerKey | Program.cs:29-33 | In the merged result, each station's entry is the default with all its readings, chunk after chunk, folded in. A station is present exactly when some folded line names it. |
| Pipeline.AggregateTotal | Program.cs:29-33 | The merged result holds exactly one observation per folded line of every chunk. |
| Pipeline.PlanFitsSpans | Program.cs:55-75 | With at least one byte per processor, or a '\n' among the first 64 bytes, every chunk starts inside the file and its length fits GetResult's int span. |
| Pipeline.SelectResults | Program.cs:31-32 | Returns one fresh, distinct table per chunk, holding that chunk's scan. |
| Pipeline.AggregateAll | Program.cs:33 | Folds every later table into the first with AggregateResult. The first table's entries become the seedless fold of all the tables. |
| Pipeline.Run | Program.cs:29-35 | The chunks are the plan; the result is the fold of the per-chunk scans; the output is PrintResults applied to the ordinal listing of the result. |
| Pipeline.ShortFileFoldsNothing | Program.cs:55-112 | A file shorter than the processor count whose first 64 bytes hold a '\n' yields an empty result. |
| Pipeline.OneProcessorLosesOnlyLine | Program.cs:55-112 | With one processor, a file whose only '\n' is its last byte gives an empty result. |
| Pipeline.OutputListsResults | Program.cs:34 | The listing printed holds every station of the merged result exactly once, in ascending ordinal order, each with its statistics. |
| Coverage.ChunkLinesAreFileLines | Program.cs:81-111 | From a line start inside a chunk that ends on a '\n' or at the end of the file, the cursor visits exactly the file's lines from there to the chunk's end. From the chunk's own start this needs its span to hold a '\n'. |
| Coverage.NextChunkContinues | Program.cs:81-111 | A chunk that starts on a '\n' visits it as an empty line that is not folded, then exactly the file's lines after it, up to its end. |
| Coverage.LaterChunkFolds | Program.cs:81-111 | A chunk that starts on its predecessor's '\n' folds exactly the file's folded lines from just past that '\n' to its end. An empty chunk folds nothing. |
| Coverage.WindowsFindNewLines | Program.cs:61-73 | When every uncut chunk finds a '\n' in its lookahead window, the last chunk reaches the end of the file and the first chunk holds a '\n', the plan splits the file at line boundaries. |
| Coverage.ChunkEndsOnLine | Program.cs:55-75 | Under the line-split conditions each chunk lies in the file, ends on a '\n' or at the end of the file, and starts where the previous one ends. |
| Coverage.PlanIsLineAligned | Program.cs:55-75 | Under the line-split conditions the plan is a run of chunks from the start of the file, each ending on a line boundary. |
| Coverage.PrefixFolds | Program.cs:29-33 | The first m chunks together fold exactly the file's folded lines up to the end of chunk m, in order. |
| Coverage.PlanCoversFile | Program.cs:29-112 | Under the line-split conditions the chunks together fold every line of the file exactly once, in file order. |
| Coverage.ResultIsFileStatistics | Program.cs:29-112 | Under the line-split conditions each station's merged entry is the default with all its readings in the file folded in, in file order. A station is present exactly when some line names it, and the result counts one observation per folded line. |
| Coverage.ThreeLinesOnTwoProcessors | Program.cs:55-75 | "a;1\nb;2\nc;3\n" on two processors is planned as (0, 7), (7, 5), which meets the line-split conditions. |
| Coverage.TwoLinesOnOneProcessor | Program.cs:55-75 | "a;1\nb;2\n" on one processor is planned as (0, 7), which meets the line-split conditions. |
| Coverage.LastChunkEndsOnFinalNewLine | Program.cs:55-75 | "a;1\nbb\nc;3\n" on two processors is planned as (0, 6), (6, 4). The last chunk is not cut, and the plan meets the line-split conditions. |
| Coverage.LongFirstLineIsLost | Program.cs:55-112 | When the first chunk is not cut and its first line ends where it ends, that line is the file's first line and no chunk visits any line starting at 0. |
| Coverage.LongFirstLineExample | Program.cs:55-112 | "abc;1\nx;2\n" on two processors is planned as (0, 5), (5, 4). The file's first line is (0, 5); the first chunk visits no line and the second visits the boundary '\n' and "x;2". |
| Coverage.FirstLineEndsWithFirstChunk | Program.cs:63-72 | Under the same conditions the file's first line ends exactly at the first chunk's end. |
| Coverage.NoChunkVisitsStart | Program.cs:81-111 | Under the same conditions no chunk visits a line that starts at 0. |
| Coverage.LaterChunksStartAfterFirst | Program.cs:61-73 | Every chunk after the first starts no earlier than the first chunk's end. |

## Left out

- Opening the file, the memory mapping, `AcquirePointer`, the `Stopwatch` and `Dump` are left out. The mapped file is a byte sequence.
- Reads past the end of the file: the model reads every position past the end as holding no `'\n'` or `';'`. In the source such a read lands in the zero-filled tail of the last page, or past the mapping, where it can fault. That fault is left out.
- An empty file is left out. `MemoryMappedFile.CreateFromFile` throws for it, and the model has no notion of the mapping.
- `Pipeline.Run`: requires at least one byte per processor, or a `'\n'` among the first 64 bytes. A file with more processors than bytes and no `'\n'` in its first 64 bytes gets offsets before the mapping (`ShortFileGivesNegativeLength`), and the source reads outside it.
- `Pipeline.Run`: requires each chunk length to fit a C# `int`. The source casts `v.length` to `int` for its span, and the model does not say what a truncated span reads.
- `ChunkScanner.GetResult`: requires `v.length <= Int32Max` and a non-negative `v.offset`, for the same `(int)` cast and the same out-of-mapping reads.
- The parallel execution of PLINQ is left out. `Select` is a sequential loop over the chunks, and `Aggregate` is a fold that seeds with the first table. Any arrival order gives the same table (`FoldTablesPermutation`), and any grouping too (`MergeAssociates`, `FoldTablesConcat`). Tasks, threads and scheduling are not modelled.
- The order in which `AggregateResult` enumerates a dictionary is not fixed: the loop picks any remaining key. The order of `Dictionary` enumeration in the final `ToDictionary()` is taken to be insertion order, so the sorted listing is what `PrintResults` receives.
- Floating point is left out. Temperatures are integers (tenths of a degree), and `FastDoubleParser.ParseDouble` is an arbitrary function `parse` from the value bytes to a number. Its exceptions on malformed input are not modelled.
- `Mean`, the `N1` formatting and `DictionaryKey.ToString` (UTF-8 decoding) are one rendering function `render`. Writing to the console is left out.
- Integer widths: `Sum` and `Count` are unbounded, so `long` overflow is not modelled. The `length * 655360` in `GetHashCode` wraps at 32 bits, as in C#.
- `OrderBy(..., StringComparer.Ordinal)` compares the UTF-16 code units of the decoded names. The model compares the UTF-8 bytes. The two orders agree except between supplementary characters and code points U+E000 to U+FFFF, and except for invalid UTF-8: it decodes to U+FFFD, so two different byte names can compare equal in the source, while the model orders them strictly.
- `Coverage.PlanCoversFile`: does not apply when a chunk ends inside a line. When the last chunk does, the source still folds the line it ends in, because the window runs past the chunk's end, but the theorem's conditions exclude that plan.
- An empty station name (a line starting with `;`) gets a null key pointer. `GetHashCode` then dereferences null, which faults. The model folds the line under the empty name instead, and the fault is not modelled.
- The dictionary capacity of 15000 and the `StringBuilder` capacity are left out; they do not change any result.
- `ResultData` is a C# struct, so the model treats it as a value. A write through the ref from `GetValueRefOrAddDefault` is a map update (`Table.Store`).
- `ChunkScanner.Step`: also tests that the line lies in the buffer. Every line the cursor visits does (`ChunkLinesShape`), so this does not change the result for any scanned line.
