# UniqueNumberCounter: the counting engine, modelled in Dafny

UniqueNumberCounter reads a binary file made of 4-byte little-endian unsigned
records, as `BinaryWriter.Write(uint)` writes them. It reports two numbers:

- how many distinct values the file holds (`uniqueNumbersCount`);
- how many values occur exactly once (`onlyOnceNumbersCount`).

It has two strategies for this, and both are modelled here.

- **`BinaryFileProcessor.ProcessBinaryFile`** is sequential. It reads the file
  front to back in 4096-byte requests and throws when a read delivers a partial
  record. It counts every record into one dictionary, then counts the
  dictionary's keys and its keys seen once. A missing file throws
  FileNotFoundException before any reading; every failure while reading is
  rethrown as the IOException "Failed to process binary file. Invalid format.",
  wrapping the exception that caused it.
- **`ParallelBinaryFileProcessor.ProcessBinaryFileParallel`** is chunked. Before
  any reading, it returns (0, 0) for an empty file and rejects a size that is not
  a multiple of 4. It then cuts the file into 100 000 000-byte chunks. A worker
  per chunk does four things:
  - opens its own stream;
  - seeks forward to the chunk start in steps of at most 256 KiB;
  - reads the chunk in requests of at most 65536 bytes, none reaching past the
    chunk end, and throws on a read that delivers nothing or a partial record;
  - counts into a local dictionary and merges it with `AddOrUpdate` into the
    shared `ConcurrentDictionary`.

  The exceptions of failed workers arrive in an `AggregateException`. The first
  inner IOException is rethrown. When there is none, one "multiple errors"
  IOException wrapping them all is thrown.

Each module follows one part of the program:

| module | file | what it holds |
|---|---|---|
| `RecordFormat` | records.dfy | bytes, `uint` records, `BitConverter.ToUInt32`/`BinaryWriter.Write(uint)` and their round trips |
| `Frequency` | frequency.dfy | frequency dictionaries, counting a block of records (the `for` loop both strategies share), `AddOrUpdate` merge, the summary |
| `Streams` | streams.dfy | what the model keeps of a `FileStream`: whether opening throws and how many bytes each `Read` delivers |
| `Errors` | errors.dfy | the exceptions both strategies throw, as values |
| `BinaryFileProcessor` | binary_file_processor.dfy | the sequential strategy |
| `ChunkPlanner` | chunk_planner.dfy | chunk count, chunk boundaries and their tiling of the file |
| `ParallelBinaryFileProcessor` | parallel_binary_file_processor.dfy | seek loop, chunk read loop, merge, `Parallel.For` as a fold over a completion order, error selection |
| `Strategies` | strategies.dfy | both strategies on one file, and the files the two test suites write |

## How the environment is modelled

- **The file** is `Option<seq<Byte>>`. `None` is a missing file.
- **A `FileStream`** is a `Stream` value with two parts:
  - `openFault` says whether opening throws, and whether what it throws is an
    IOException;
  - `caps[k]` caps how many bytes the k-th `Read` call delivers. A cap may be 0
    or a partial record. Every call after the caps delivers all it is asked for,
    as a regular file does.

  Every interleaving of short reads is therefore an input, not an assumption.
- **`Parallel.For`** becomes a fold over `order`, the order in which the workers
  finish. It may be any permutation of the chunk indices. Successful workers
  merge in that order, and failed workers' exceptions are collected in that
  order.
- **The headline result** is in `ProcessBinaryFileParallel`'s contract. When no
  worker throws, the parallel result is the summary of the multiset of the
  file's records, whatever the completion order. It is also what
  `ProcessBinaryFile` returns (`Strategies.CompareStrategies`).

## Model

| member | source | states |
|---|---|---|
| RecordFormat.DecodeAt | UniqueNumberCounterApp/BinaryFileProcessor.cs:54 | `BitConverter.ToUInt32(buffer, i)` on a little-endian host: b[i] + 256·b[i+1] + 65536·b[i+2] + 16777216·b[i+3]; the fourth byte is the most significant, so the value is below 2^24 exactly when that byte is 0 |
| RecordFormat.DecodeEncode | UniqueNumberCounterTests/BinaryFileProcessorTests.cs:114-131 | decoding the four bytes `BinaryWriter.Write(uint)` writes for v gives back v |
| RecordFormat.EncodeDecode | UniqueNumberCounterApp/BinaryFileProcessor.cs:54 | re-encoding the value `BitConverter.ToUInt32` decodes at offset i gives back the four bytes at i |
| RecordFormat.EncodeU32 | UniqueNumberCounterTests/BinaryFileProcessorTests.cs:121-124 | a written `uint` takes exactly four bytes |
| RecordFormat.RecordsEncodeU32 | UniqueNumberCounterTests/BinaryFileProcessorTests.cs:121-124 | a file holding one written value reads back as exactly that value |
| RecordFormat.Records | UniqueNumberCounterApp/BinaryFileProcessor.cs:41-61 | a file of whole records holds one record per four bytes |
| RecordFormat.RecordsAt | UniqueNumberCounterApp/BinaryFileProcessor.cs:54 | record j of a file is the value decoded at byte offset 4j |
| RecordFormat.RecordsIn | UniqueNumberCounterApp/ParallelBinaryFileProcessor.cs:56-73 | the run of records starting at an offset has the requested length |
| RecordFormat.RecordsInRange | UniqueNumberCounterApp/ParallelBinaryFileProcessor.cs:56-73 | the n records from offset lo are the records of the byte range [lo, lo+4n) |
| RecordFormat.RecordsInWhole | UniqueNumberCounterApp/BinaryFileProcessor.cs:41-62 | the records counted from offset 0 to the end are all the file's records |
| RecordFormat.RecordsInSplit | UniqueNumberCounterApp/ParallelBinaryFileProcessor.cs:32-33 | two adjacent runs of records together are the first run followed by the second |
| RecordFormat.RecordsInPrefix | UniqueNumberCounterApp/ParallelBinaryFileProcessor.cs:32-33 | the records before a record boundary hi are those before lo followed by those between lo and hi |
| RecordFormat.RecordsAppend | UniqueNumberCounterApp/BinaryFileProcessor.cs:41-62 | decoding distributes over concatenation at a record boundary, so the records do not depend on where the reads split the file |
| RecordFormat.EncodeAll | UniqueNumberCounterTests/BinaryFileProcessorTests.cs:114-131 | writing n values produces 4n bytes |
| RecordFormat.RecordsEncodeAll | UniqueNumberCounterTests/BinaryFileProcessorTests.cs:114-131 | reading back a file of written values yields exactly those values, in order |
| RecordFormat.EncodeAllRecords | UniqueNumberCounterApp/BinaryFileProcessor.cs:50-61 | every file of whole records is the writing of its records, so decoding loses nothing |
| Frequency.Increment | UniqueNumberCounterApp/BinaryFileProcessor.cs:55 | `map[number] = map.TryGetValue(number, out count) ? count + 1 : 1`: afterwards the value is a key and its count is one more than before (0 when it was absent) |
| Frequency.IncrementChangesOneKey | UniqueNumberCounterApp/BinaryFileProcessor.cs:55 | counting one record adds its value as a key, raises its count by one and leaves every other key's count unchanged |
| Frequency.CountBlock | UniqueNumberCounterApp/BinaryFileProcessor.cs:50-61 | the `for` loop over a block of whole records continues the count of the file's records from the block's start through the block's end; every decode offset lies inside the block |
| Frequency.IncrementFreq | UniqueNumberCounterApp/BinaryFileProcessor.cs:55 | counting one more record gives the frequency mapping of the multiset with that record added |
| Frequency.CountRecordsIsFreq | UniqueNumberCounterApp/ParallelBinaryFileProcessor.cs:68-72 | counting a run of records one by one gives the frequency mapping of the multiset of those records |
| Frequency.CountWholeFile | UniqueNumberCounterApp/BinaryFileProcessor.cs:41-62 | counting a whole file record by record gives the frequency mapping of the multiset of its records |
| Frequency.CountRecordsCounts | UniqueNumberCounterApp/BinaryFileProcessor.cs:50-56 | after counting, the keys are exactly the values that occur and each key maps to the number of records equal to it |
| Frequency.Merge | UniqueNumberCounterApp/ParallelBinaryFileProcessor.cs:75-78 | merging a local dictionary raises each of its keys by the local count (inserting absent ones with it) and leaves every other key unchanged |
| Frequency.AddOrUpdate | UniqueNumberCounterApp/ParallelBinaryFileProcessor.cs:77 | `AddOrUpdate` inserts an absent key with the value, adds the value to a present one, and changes no other key |
| Frequency.MergeOneMore | UniqueNumberCounterApp/ParallelBinaryFileProcessor.cs:75-78 | merging one more key of the local dictionary is one `AddOrUpdate` of that key with its local count |
| Frequency.MergeCommutes | UniqueNumberCounterApp/ParallelBinaryFileProcessor.cs:75-78 | merging two dictionaries gives the same result in either order |
| Frequency.MergeAssociates | UniqueNumberCounterApp/ParallelBinaryFileProcessor.cs:75-78 | merging three dictionaries does not depend on how the merges are grouped |
| Frequency.MergeEmpty | UniqueNumberCounterApp/ParallelBinaryFileProcessor.cs:24 | the empty dictionary the parallel strategy starts from is neutral for merging |
| Frequency.MergeFreq | UniqueNumberCounterApp/ParallelBinaryFileProcessor.cs:75-78 | merging the frequency mappings of two multisets of records gives the mapping of their union |
| Frequency.Summary | UniqueNumberCounterApp/ParallelBinaryFileProcessor.cs:96-97 | the two counts are the number of keys and the number of keys with count 1; the second never exceeds the first, and the first is 0 exactly for an empty dictionary |
| Frequency.SummaryIncrementAbsent | UniqueNumberCounterApp/BinaryFileProcessor.cs:25-30 | counting a value not seen before adds one distinct value and one value seen once |
| Frequency.DistinctCounts | UniqueNumberCounterTests/BinaryFileProcessorTests.cs:34-55 | n pairwise different values give (n, n) |
| Streams.Delivered | UniqueNumberCounterApp/BinaryFileProcessor.cs:43 | a `Read` delivers at most the requested count, and all of it once the stream stops delivering short reads |
| Streams.ReadsAlignedStep | UniqueNumberCounterApp/BinaryFileProcessor.cs:41-48 | one iteration of the sequential loop: the read succeeds exactly when it delivers whole records and the rest of the reads succeed |
| Streams.NoFaultReadsAligned | UniqueNumberCounterApp/ParallelBinaryFileProcessor.cs:56-73 | a chunk read without a zero-byte or misaligned read is a whole number of records, every read of which delivers whole records |
| Streams.ReadsAlignedTotal | UniqueNumberCounterApp/BinaryFileProcessor.cs:41-48 | if every read delivers whole records, the bytes read are a whole number of records |
| Streams.FullReadsAligned | UniqueNumberCounterApp/BinaryFileProcessor.cs:41-48 | with full 4096-byte reads, every read delivers whole records exactly when the file size is a multiple of 4 |
| Streams.FullReadsNoFault | UniqueNumberCounterApp/ParallelBinaryFileProcessor.cs:56-66 | with full reads, a chunk of whole records is read without a zero-byte or misaligned read |
| BinaryFileProcessor.ReadBinaryFile | UniqueNumberCounterApp/BinaryFileProcessor.cs:35-65 | succeeds exactly when the stream opens and every read delivers whole records; the dictionary is then the count of every record of the file, whatever the read sizes; otherwise the open failure or the "Invalid format" IOException |
| BinaryFileProcessor.CountUniqueAndOnlyOnce | UniqueNumberCounterApp/BinaryFileProcessor.cs:25-30 | the `foreach` over the dictionary yields its summary: the number of keys and the number of keys with count 1 |
| BinaryFileProcessor.ProcessBinaryFile | UniqueNumberCounterApp/BinaryFileProcessor.cs:9-33 | a missing file throws FileNotFoundException; every read failure is rethrown as "Invalid format" wrapping exactly the exception `ReadBinaryFile` threw (the open failure, or the inner "Invalid format" of a misaligned read); a size not a multiple of 4 fails; with full reads, success exactly for a multiple of 4; on success the summary of the multiset of the file's records |
| ChunkPlanner.ChunkCount | UniqueNumberCounterApp/ParallelBinaryFileProcessor.cs:23 | at least one chunk, and the least number of chunks that reaches the end of the file: the last one starts inside the file |
| ChunkPlanner.ChunkStart | UniqueNumberCounterApp/ParallelBinaryFileProcessor.cs:32 | `chunkStart = chunkIndex * ChunkSize`: a multiple of the chunk size from which the chunk index is recovered by division |
| ChunkPlanner.ChunkEnd | UniqueNumberCounterApp/ParallelBinaryFileProcessor.cs:33 | a chunk never ends past the end of the file |
| ChunkPlanner.ChunkInFile | UniqueNumberCounterApp/ParallelBinaryFileProcessor.cs:32-36 | every planned chunk is a non-empty range inside the file, so the "Invalid chunk range" guard never fires |
| ChunkPlanner.ChunksTile | UniqueNumberCounterApp/ParallelBinaryFileProcessor.cs:23-33 | chunk i starts where chunks 0..i-1 end and ends where chunk i+1 starts; the first starts at 0 and the last ends at the end of the file |
| ChunkPlanner.ChunkSpan | UniqueNumberCounterApp/ParallelBinaryFileProcessor.cs:32-33 | in a file of whole records, each chunk is a non-empty run of whole records |
| ChunkPlanner.CoveredStep | UniqueNumberCounterApp/ParallelBinaryFileProcessor.cs:32-33 | consecutive chunk boundaries are ordered, inside the file, and multiples of 4 |
| ChunkPlanner.CoveredGrows | UniqueNumberCounterApp/ParallelBinaryFileProcessor.cs:32-33 | consecutive chunk boundaries are ordered and never pass the end of the file |
| ChunkPlanner.ChunkAligned | UniqueNumberCounterApp/ParallelBinaryFileProcessor.cs:8 | in a file of whole records, every chunk start and end is a multiple of 4 |
| ParallelBinaryFileProcessor.SeekTo | UniqueNumberCounterApp/ParallelBinaryFileProcessor.cs:43-52 | the seek loop moves strictly forward by at most 256 KiB per step and stops exactly at the chunk start, so "Seek failed" never fires |
| ParallelBinaryFileProcessor.ChunkRecords | UniqueNumberCounterApp/ParallelBinaryFileProcessor.cs:32-33 | chunk i holds exactly (end - start)/4 records |
| ParallelBinaryFileProcessor.ChunkOutcome | UniqueNumberCounterApp/ParallelBinaryFileProcessor.cs:38-83 | what worker i hands back: success only when its stream opens; an IOException from opening or reading is rethrown wrapped and tagged with the chunk index i, and the only exception that is not an IOException (one thrown by opening) escapes unwrapped |
| ParallelBinaryFileProcessor.ReadChunk | UniqueNumberCounterApp/ParallelBinaryFileProcessor.cs:56-73 | the chunk read loop requests at most min(65536, bytes left) and so never passes the chunk end; it fails at the first zero-byte or misaligned read, otherwise the local dictionary counts the chunk's records |
| ParallelBinaryFileProcessor.ScanChunk | UniqueNumberCounterApp/ParallelBinaryFileProcessor.cs:30-84 | one worker: an IOException from opening or reading is wrapped as "Failed to process binary file chunk i", any other exception escapes unwrapped, otherwise the chunk's local dictionary |
| ParallelBinaryFileProcessor.MergeInto | UniqueNumberCounterApp/ParallelBinaryFileProcessor.cs:75-78 | the `foreach` of `AddOrUpdate` calls leaves the shared dictionary equal to its merge with the local one |
| ParallelBinaryFileProcessor.ScheduleIsValidRun | UniqueNumberCounterApp/ParallelBinaryFileProcessor.cs:30 | a completion order that is a permutation of the chunk indices names only planned chunks |
| ParallelBinaryFileProcessor.RunChunks | UniqueNumberCounterApp/ParallelBinaryFileProcessor.cs:28-84 | `Parallel.For` with the workers finishing in the given order: the shared dictionary is the merge of the successful workers' dictionaries, a failed worker merges nothing, and the collected exceptions are the failed workers', in order |
| ParallelBinaryFileProcessor.FirstIOException | UniqueNumberCounterApp/ParallelBinaryFileProcessor.cs:88-92 | the position of the first IOException among the collected exceptions: none before it is one, and it is one unless it is the end |
| ParallelBinaryFileProcessor.SelectedError | UniqueNumberCounterApp/ParallelBinaryFileProcessor.cs:86-94 | the exception rethrown is always an IOException, and it is one of the collected ones or the "multiple errors" one wrapping them |
| ParallelBinaryFileProcessor.SelectError | UniqueNumberCounterApp/ParallelBinaryFileProcessor.cs:86-94 | the catch block's loop rethrows the first IOException, or throws the "multiple errors" exception when there is none |
| ParallelBinaryFileProcessor.FirstIOExceptionIsFirst | UniqueNumberCounterApp/ParallelBinaryFileProcessor.cs:88-92 | a position with no IOException before it and one at it (or at the end) is the first IOException |
| ParallelBinaryFileProcessor.ProcessBinaryFileParallel | UniqueNumberCounterApp/ParallelBinaryFileProcessor.cs:10-100 | a missing file throws FileNotFoundException; an empty file gives (0, 0); a size not a multiple of 4 throws "Invalid format" before any chunk work; otherwise, with no worker failing, the summary of the multiset of the file's records whatever the completion order, and with some failing an IOException chosen by the catch block |
| ParallelBinaryFileProcessor.ChunkOutcomeSucceeds | UniqueNumberCounterApp/ParallelBinaryFileProcessor.cs:38-73 | a worker succeeds exactly when its stream opens and no read of its chunk delivers nothing or a partial record |
| ParallelBinaryFileProcessor.ChunkBagIs | UniqueNumberCounterApp/ParallelBinaryFileProcessor.cs:32-33 | chunk i's records are the records between its start and its end |
| ParallelBinaryFileProcessor.ChunkOutcomeCounts | UniqueNumberCounterApp/ParallelBinaryFileProcessor.cs:54-73 | a worker that succeeds hands back the frequency mapping of its chunk's records |
| ParallelBinaryFileProcessor.HealthyChunkSucceeds | UniqueNumberCounterApp/ParallelBinaryFileProcessor.cs:38-73 | a worker whose stream opens and fills every request never fails |
| ParallelBinaryFileProcessor.HealthyRunNoErrors | UniqueNumberCounterApp/ParallelBinaryFileProcessor.cs:28-84 | with such streams, no worker throws |
| ParallelBinaryFileProcessor.ReducedIsFreq | UniqueNumberCounterApp/ParallelBinaryFileProcessor.cs:75-78 | when no worker throws, the shared dictionary is the frequency mapping of the records of the chunks merged so far |
| ParallelBinaryFileProcessor.BagSumAppend | UniqueNumberCounterApp/ParallelBinaryFileProcessor.cs:28-84 | the records of two lists of chunks together are the records of their concatenation |
| ParallelBinaryFileProcessor.BagSumRemove | UniqueNumberCounterApp/ParallelBinaryFileProcessor.cs:28-84 | taking one chunk out of a list takes exactly its records out |
| ParallelBinaryFileProcessor.BagSumPermutation | UniqueNumberCounterApp/ParallelBinaryFileProcessor.cs:28-84 | the records of a set of chunks do not depend on the order the workers finish in |
| ParallelBinaryFileProcessor.ChunkBagBetween | UniqueNumberCounterApp/ParallelBinaryFileProcessor.cs:32-33 | chunk i's records lie between the offset chunks 0..i-1 reach and the offset it reaches |
| ParallelBinaryFileProcessor.PrefixBag | UniqueNumberCounterApp/ParallelBinaryFileProcessor.cs:23-33 | chunks 0..i-1 together hold exactly the records of the file up to where they reach |
| ParallelBinaryFileProcessor.AllChunksCounted | UniqueNumberCounterApp/ParallelBinaryFileProcessor.cs:28-84 | when no worker throws, the shared dictionary is the frequency mapping of every record of the file |
| Strategies.CompareStrategies | UniqueNumberCounterTests/ParallelBinaryFileProcessorTests.cs:99-122 | both strategies reject a missing file with FileNotFoundException and reject a size that is not a multiple of 4; whenever both succeed they return the same counts; with healthy streams both succeed exactly on files of whole records |
| Strategies.HealthySchedule | UniqueNumberCounterApp/ParallelBinaryFileProcessor.cs:30 | one healthy stream per planned chunk, with the workers finishing in index order |
| Strategies.CountWritten | UniqueNumberCounterTests/BinaryFileProcessorTests.cs:114-131 | a file written by `BinaryWriter` and read over healthy streams gives, in both strategies, the summary of the written values |
| Strategies.DisplayResultsExample | UniqueNumberCounterTests/ParallelBinaryFileProcessorTests.cs:77-97 | [0x100, 0x100, 0x800, 0xFFF] counts 3 distinct values, 2 of them seen once |
| Strategies.DistinctPatterns | UniqueNumberCounterTests/ParallelBinaryFileProcessorTests.cs:99-122 | the rows [], [0x100], [0x222, 0x333] and [0x222, 0x333, 0x444] count (0, 0), (1, 1), (2, 2) and (3, 3) |
| Strategies.RepeatedPair | UniqueNumberCounterTests/ParallelBinaryFileProcessorTests.cs:101 | [0x100, 0x100] counts (1, 0) |
| Strategies.TwoRepeatedPairs | UniqueNumberCounterTests/ParallelBinaryFileProcessorTests.cs:102 | [0x222, 0x222, 0x333, 0x333] counts (2, 0) |
| Strategies.ThreeRepeatedValues | UniqueNumberCounterTests/ParallelBinaryFileProcessorTests.cs:103 | [0x777, 0x888, 0x999, 0x888, 0x999, 0x777, 0x999] counts (3, 0) |
| Strategies.PairAndSingle | UniqueNumberCounterTests/ParallelBinaryFileProcessorTests.cs:105 | [0xAAA, 0xAAA, 0xBBB] counts (2, 1) |
| Strategies.TripleSingleAndPair | UniqueNumberCounterTests/ParallelBinaryFileProcessorTests.cs:106 | [0x100, 0x100, 0x100, 0x200, 0x300, 0x300] counts (3, 1) |
| Strategies.PairAndThreeSingles | UniqueNumberCounterTests/ParallelBinaryFileProcessorTests.cs:109 | [0xABC, 0xABC, 0x500, 0x600, 0x700] counts (4, 3) |
| Strategies.MixedEight | UniqueNumberCounterTests/ParallelBinaryFileProcessorTests.cs:110 | [0x400, 0x500, 0x600, 0xBCD, 0xBCD, 0x700, 0x400, 0xBCD] counts (5, 3) |
| Strategies.MixedEightFreq | UniqueNumberCounterTests/ParallelBinaryFileProcessorTests.cs:110 | that row's dictionary holds 0x400 twice, 0xBCD three times and 0x500, 0x600, 0x700 once each |
| Strategies.SequentialNumbers | UniqueNumberCounterTests/ParallelBinaryFileProcessorTests.cs:151-161 | `GenerateSequentialNumbers(count)` is 0, 1, ..., count-1; the `HashSet` is taken to enumerate in insertion order, which does not matter to the counts, since they depend only on the multiset of values |
| Strategies.VariousDatasetSizes | UniqueNumberCounterTests/ParallelBinaryFileProcessorTests.cs:25-56 | count sequential numbers give (count, count) |

## Left out

- File-system and stream I/O are not modelled:
  - `File.Exists` is modelled only as the `None` file;
  - `FileInfo.Length` is modelled as the length of the byte sequence;
  - `FileStream` and `Read` are modelled by the `Stream` value;
  - `Seek` is not part of `Stream`: `ParallelBinaryFileProcessor.SeekTo` takes each `Seek(nextSeek, SeekOrigin.Current)` to move exactly `nextSeek` bytes;
  - `ArrayPool` is not modelled.
- The stream is reopened per worker at position 0, and only its byte counts are modelled. A read that throws part-way through a file, rather than delivering a short count, is not modelled, and neither is a `Seek` that throws or lands elsewhere.
- BinaryFileProcessor.ReadBinaryFile: the sequential loop has no zero-byte guard. On a real stream, a `Read` returning 0 before the end would make it spin forever. In the model, reads past the `caps` schedule deliver in full, so the loop always ends, and a zero-byte read is simply issued again.
- Concurrency is not modelled: `Parallel.For`, `MaxDegreeOfParallelism` and the thread safety of `ConcurrentDictionary`. The model replaces them with a sequential fold over any completion order.
  - `Parallel.For` may stop starting new chunks once one has failed. The model runs every chunk. This changes only which exceptions are collected, and the result is then an exception chosen by the same rule.
- Error selection follows the catch block at UniqueNumberCounterApp/ParallelBinaryFileProcessor.cs:86-93. The first inner IOException is rethrown; when there is none, one "multiple errors" IOException wrapping them is thrown.
- The C# `int` counters and the `int` chunk count are modelled with unbounded integers. Overflow past 2^31 occurrences is not modelled.
- ChunkPlanner.ChunkCount: the double-precision `Math.Ceiling((double)fileSize / ChunkSize)` and its `int` cast are modelled as exact integer ceiling division, which agrees for every file size a `double` represents exactly.
- `BitConverter.ToUInt32` is modelled on a little-endian host, matching `BinaryWriter`.
- Three guards are not modelled as branches: the "Invalid chunk range" guard, the "Seek failed" check and the "invalid uint data" catch. The model proves they never fire (`ChunkPlanner.ChunkInFile`, `ParallelBinaryFileProcessor.SeekTo`, `Frequency.CountBlock`).
- Exception messages are modelled by their kind and chunk index, not their wording.
- `DisplayResults` (both classes), UniqueNumberCounterApp/LowLevelBinaryFileProcessor.cs and UniqueNumberCounterApp/Program.cs are console I/O, P/Invoke and argument handling; they are not part of this model.
