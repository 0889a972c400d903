# Altion external sort — a verified Dafny model

Altion sorts a large text file of records `"<Number>. <Text>"`, one per line. The records are ordered by
`Text` (ordinal), then by `Number`. The sort runs in three phases:

1. **Split.** `SplitFile` cuts the source bytes into chunk files `{i}.altionunsorted`. Each chunk holds
   `ChunkFileSize` bytes and is then extended up to the next `NewLineSign`. The largest row count
   recorded for a chunk sizes the shared scratch array `_unsortedRows`.
2. **Sort.** `SortFile` parses each chunk into the scratch array, sorts the whole array with
   `FileDataRowComparer` (null slots first), writes the non-null rows to `{i}.altionsorted` and clears
   the array. When there is exactly one chunk, it is sorted straight into the destination.
3. **Merge.** `MergeFiles` merges the runs. While more than `FilesMergeChunkSize` (K) runs exist, a
   pass cuts them into consecutive batches of K. Each batch is k-way merged (`Merge`) into run j, or
   moved there when it holds a single file. The runs are then listed again. The last ≤ K runs are
   merged into the destination.

The model is split into these modules:

| module | file | what it holds |
|---|---|---|
| `Results` | results.dfy | null (`None`), the exceptions that abort a run (`Fault`) |
| `Seqs` | seqs.dfy | `Flatten`, `FlatMap`, `Range`, `Distinct` |
| `Records` | records.dfy | `FileDataRow`: `String.Split(". ")`, `long.Parse`/`ToString`, `FromString`, `ToFileRow` |
| `Comparer` | comparer.dfy | `FileDataRowComparer.Compare` and its order laws |
| `Lines` | lines.dfy | bytes, `NewLineSign`, the lines a `StreamReader` reads, parsing a file's lines |
| `Splitting` | splitting.dfy | the chunks `SplitFile` produces and the row counts it records |
| `Sorting` | sorting.dfy | the result of `Array.Sort`/`List.Sort` (an insertion sort) and the null-slot filter |
| `Merging` | merging.dfy | the loop of `Merge`: readers, the frontier `rows`, its invariant and step lemmas |
| `Passes` | passes.dfy | the batches of a pass (`Chunk`), run-file numbering, `Deleted`, the pass invariant |
| `ExternalSort` | sorter.dfy | class `Sorter` with `_unsortedRows` as an `array` and the working directory as two maps |

Key modelling choices:

- **Working directory.** It is two maps keyed by file number:
  - `unsortedFiles: map<nat, seq<byte>>` holds `{i}.altionunsorted`;
  - `sortedFiles: map<nat, seq<Record>>` holds `{i}.altionsorted`.
- **Run files hold records.** A run file holds the records of its lines. Writing a record with
  `ToFileRow` and reading it back with `FromString` gives the same record, which
  `Records.ParsedLineRoundTrip` proves.
- **Destination.** The destination stream is the field `destination: seq<Record>`.
- **Exceptions.** An exception that aborts the sort is an `Err` result: a `long.Parse` failure,
  `split[1]` out of range, `_unsortedRows` out of range, `rows[0]` on an empty list, a run file with no
  first line, or a missing file.
- **Null references.** `None` stands for a null `FileDataRow`.
- **`ReferenceEquals`.** It is modelled by value equality. This is sound because two records with the
  same fields compare as 0 anyway.

## Model

| member | source | states |
|---|---|---|
| Records.SplitJoin | Altion/Shared/FileDataRow.cs:10 | `String.Split(". ")` loses nothing: joining the pieces with `". "` gives the line back, and no piece contains `". "` |
| Records.Split | Altion/Shared/FileDataRow.cs:10 | `String.Split` always returns at least one piece, so `split[0]` never throws |
| Records.FormatLong | Altion/Shared/FileDataRow.cs:18 | `long.ToString()`: non-empty, made only of digits and `-`, and starting with `-` exactly for negative values |
| Records.ParseLong | Altion/Shared/FileDataRow.cs:13 | `long.Parse` accepts only an optional `-` followed by digits, and only values in the range of a long; `FormatParseLong` shows it inverts `FormatLong` |
| Records.ToFileRow | Altion/Shared/FileDataRow.cs:18 | the line `{Number}. {Text}` splits back into exactly the rendered number and the text when the text holds no `". "` |
| Records.FormatParseLong | Altion/Shared/FileDataRow.cs:13-18 | parsing the decimal rendering of any 64-bit value gives that value back |
| Records.FormatLongNoSep | Altion/Shared/FileDataRow.cs:18 | the rendering of a number contains neither `". "` nor a line end |
| Records.FromString | Altion/Shared/FileDataRow.cs:8-16 | fails with `NumberFormat` exactly when the first piece is not a long; fails with `MissingSeparator` exactly when the number parses but the line has no `". "`; on success the record is the first piece's value with the second piece as its text (so the text holds no `". "`, and everything from a second separator on is dropped), and the line starts with `<first piece>. <text>` |
| Records.RoundTrip | Altion/Shared/FileDataRow.cs:10-18 | `FromString(ToFileRow(r)) == Ok(r)` for every record whose text holds no `". "` |
| Records.TextWithSepIsTruncated | Altion/Shared/FileDataRow.cs:10-14 | a text `a. b` is read back as `a`: everything from its first `". "` is dropped |
| Records.ReverseRoundTrip | Altion/Shared/FileDataRow.cs:10-18 | `ToFileRow(FromString(s)) == s` when s holds exactly one `". "` and the part before it is the canonical rendering of a long |
| Records.ParsedLineRoundTrip | Altion/Shared/FileDataRow.cs:10-18 | a record parsed from a line is written as one line (no line end inside) that parses back to the same record |
| Comparer.OrdinalCompare | Altion/Sort/FileDataRowComparer.cs:24 | ordinal string comparison: 0 exactly for equal strings, and a prefix is never greater |
| Comparer.OrdinalAntisymmetric | Altion/Sort/FileDataRowComparer.cs:24 | swapping the strings negates the ordinal comparison |
| Comparer.OrdinalTransitive | Altion/Sort/FileDataRowComparer.cs:24 | the ordinal order is transitive |
| Comparer.CompareLong | Altion/Sort/FileDataRowComparer.cs:25 | `long.CompareTo`: negative exactly when the first number is smaller, 0 exactly when they are equal |
| Comparer.Compare | Altion/Sort/FileDataRowComparer.cs:7-26 | 0 exactly for the same record (both null, or equal fields); null is below every record (`Compare(x, null) == 1`, `Compare(null, y) == -1`) |
| Comparer.TextFirst | Altion/Sort/FileDataRowComparer.cs:24-25 | different texts are ordered by their texts alone; only for equal texts does the number decide |
| Comparer.Antisymmetric | Altion/Sort/FileDataRowComparer.cs:7-26 | `Compare(x, y) == -Compare(y, x)` for all records and nulls |
| Comparer.Transitive | Altion/Sort/FileDataRowComparer.cs:7-26 | `Compare(x, y) <= 0` and `Compare(y, z) <= 0` give `Compare(x, z) <= 0` |
| Comparer.Total | Altion/Sort/FileDataRowComparer.cs:7-26 | any two values are ordered one way or the other |
| Lines.LinesCount | Altion/Sort/Sorter.cs:187-190 | a file has one line per `NewLineSign`, plus one for an unterminated last line |
| Lines.LinesOf | Altion/Sort/Sorter.cs:186-190 | the lines `ReadLine` returns until `EndOfStream`: none exactly for an empty file |
| Lines.LinesAreClean | Altion/Sort/Sorter.cs:187-190 | no line read contains `NewLineSign` |
| Lines.LinesAppend | Altion/Sort/Sorter.cs:139-146 | a cut right after a `NewLineSign` splits no line: the lines of `a + b` are those of a then those of b |
| Lines.ParseAllMeaning | Altion/Sort/Sorter.cs:187-190 | the lines parse exactly when each line does; the rows are then the lines' rows in order; otherwise the error is that of a line that fails |
| Splitting.ChunkEnd | Altion/Sort/Sorter.cs:108-137 | a chunk takes `min(C, rest)` bytes; when the last of them is a `NewLineSign` it stops there, otherwise it is extended through the first `NewLineSign` after them (no earlier one is passed over) or to the end of the source |
| Splitting.Chunks | Altion/Sort/Sorter.cs:104-156 | there are no chunks exactly when the source is empty |
| Splitting.ChunksConcat | Altion/Sort/Sorter.cs:104-146 | the chunks, in order, concatenate to the source: each byte is written exactly once |
| Splitting.ChunksNonEmpty | Altion/Sort/Sorter.cs:104-141 | no chunk file is empty |
| Splitting.ChunksShape | Altion/Sort/Sorter.cs:108-137 | every chunk but the last holds at least C bytes and ends with `NewLineSign` |
| Splitting.MaxRowsBound | Altion/Sort/Sorter.cs:148-158 | the scratch capacity is at least every chunk's recorded row count and equals one of them (0 without chunks) |
| Splitting.ShortChunkRows | Altion/Sort/Sorter.cs:106-146 | a chunk that was not extended is counted one row short when its last line is unterminated |
| Splitting.ExtendedChunkRows | Altion/Sort/Sorter.cs:125-146 | an extended chunk's row count equals its number of lines |
| Splitting.FirstChunkRows | Altion/Sort/Sorter.cs:106-146 | the first chunk's count is its number of lines, minus one only for an unterminated chunk that was not extended |
| Splitting.ChunkRows | Altion/Sort/Sorter.cs:104-156 | the same holds for every chunk |
| Splitting.ChunkLines | Altion/Sort/Sorter.cs:104-146 | when every chunk but the last ends a line, the chunks' lines are the source's lines |
| ExternalSort.SourceLines | Altion/Sort/Sorter.cs:104-146 | the source's lines are exactly its chunks' lines, in order |
| ExternalSort.ChunkFiles | Altion/Sort/Sorter.cs:139-140 | file i exists for i = 1..n and holds the i-th chunk |
| ExternalSort.Sorter.SplitFile | Altion/Sort/Sorter.cs:91-161 | creates exactly the chunk files 1..n, returns their names in order, and allocates an all-null scratch array with `MaxRows` slots |
| ExternalSort.Sorter.constructor | Altion/Sort/Sorter.cs:23-28 | stores the configuration and starts with an empty scratch array (`Array.Empty`), an empty working directory and no output |
| ExternalSort.Sorter.WriteChunks | Altion/Sort/Sorter.cs:103-156 | the outer loop writes `Chunks(source)` as files 1..n and keeps the largest row count |
| ExternalSort.Sorter.SplittingStart | Altion/Sort/Sorter.cs:96-103 | the loop invariant holds before the first chunk |
| ExternalSort.Sorter.NextChunk | Altion/Sort/Sorter.cs:139-153 | one round extends the written chunks, the names, the directory and the maximum by the next chunk |
| ExternalSort.Sorter.SplittingDone | Altion/Sort/Sorter.cs:104-160 | when the cursor reaches the end, exactly all chunks are written |
| ExternalSort.Sorter.ChunksAt | Altion/Sort/Sorter.cs:104-141 | the chunks from a boundary on are the chunk read there, then the chunks after it |
| ExternalSort.Sorter.ReadChunk | Altion/Sort/Sorter.cs:106-146 | one round reads exactly the next chunk and records its row count |
| ExternalSort.Sorter.ChunkOfReads | Altion/Sort/Sorter.cs:108-137 | the two inner loops together stop at the chunk end, and an extension is read only past C bytes |
| ExternalSort.Sorter.FillBuffer | Altion/Sort/Sorter.cs:106-123 | reads `min(C, rest)` bytes into the buffer and counts the `NewLineSign` bytes among them |
| ExternalSort.Sorter.ReadToLineEnd | Altion/Sort/Sorter.cs:125-137 | unless the last byte is `NewLineSign`, reads on through the next `NewLineSign` or to the end of the source |
| ExternalSort.Sorter.SortFile | Altion/Sort/Sorter.cs:183-200 | succeeds exactly when the chunk has no more lines than the array has slots and every line parses; it then writes the chunk's records sorted and as a permutation, and leaves every slot null; on overflow the first `capacity + 1` lines did parse |
| ExternalSort.Sorter.ReadRows | Altion/Sort/Sorter.cs:186-190 | fills slots 0..m-1 with the parsed rows and leaves the rest null; a line that fails to parse fails before its slot is checked |
| ExternalSort.Sorter.SortRows | Altion/Sort/Sorter.cs:192 | the array is rearranged into its sorted arrangement under the null-aware comparer |
| ExternalSort.Sorter.WrittenRows | Altion/Sort/Sorter.cs:194-197 | writes exactly the non-null slots, in order |
| ExternalSort.Sorter.ClearRows | Altion/Sort/Sorter.cs:199 | every slot is null again |
| ExternalSort.Sorter.SortedRows | Altion/Sort/Sorter.cs:192-197 | the non-null slots of the sorted array are the parsed records, sorted |
| Sorting.SortByPermutes | Altion/Sort/Sorter.cs:192 | sorting is a permutation |
| Sorting.SortBy | Altion/Sort/Sorter.cs:192 | the sorted arrangement keeps the number of elements; its order and its being a permutation are `SortBySorted` and `SortByPermutes` |
| Sorting.SortBySorted | Altion/Sort/Sorter.cs:192 | sorting gives the comparer's order |
| Sorting.SortRecords | Altion/Sort/Sorter.cs:192-197 | the sorted form of records is ordered and a permutation |
| Sorting.SortedUnique | Altion/Sort/Sorter.cs:192 | two ordered permutations of the same records are equal, so an unstable sort is harmless |
| Sorting.SortedPermutationIsSortRecords | Altion/Sort/Sorter.cs:192-197 | any ordered permutation of the records is `SortRecords` |
| Sorting.PresentOfSorted | Altion/Sort/Sorter.cs:192-194 | dropping the nulls from the sorted slots leaves the records sorted |
| Sorting.PresentFilled | Altion/Sort/Sorter.cs:186-194 | slots holding the rows, then only nulls, hold exactly the rows |
| ExternalSort.Sorter.SortFiles | Altion/Sort/Sorter.cs:164-181 | succeeds exactly when the names are distinct and every chunk file exists and fits; it then writes run i as the sorted chunk i, deletes exactly those chunk files and returns the names in the same order |
| ExternalSort.Sorter.SortOneFile | Altion/Sort/Sorter.cs:169-177 | sorts one chunk file into the run file with its number and deletes the chunk file |
| ExternalSort.SortFilesNext | Altion/Sort/Sorter.cs:169-177 | one successful round extends the written runs and the deletions by one file |
| ExternalSort.SortFilesFails | Altion/Sort/Sorter.cs:169-177 | a round that fails shows a repeated name or a chunk that does not fit |
| ExternalSort.AllFitChunks | Altion/Sort/Sorter.cs:164-181 | the chunk files 1..n all fit exactly when every chunk does |
| ExternalSort.ParseChunks | Altion/Sort/Sorter.cs:187-190 | the chunks' lines all parse exactly when each chunk's lines do |
| ExternalSort.ChunkRuns | Altion/Sort/Sorter.cs:164-200 | the runs left by `SortFiles` are numbered 1..n, sorted and non-empty, and hold exactly the records of the source's lines |
| Merging.InitEstablishes | Altion/Sort/Sorter.cs:288-307 | after opening the readers, the frontier holds each run's first line, one per reader; nothing has been written; the total is the runs' records |
| Merging.SortKeeps | Altion/Sort/Sorter.cs:266 | sorting the frontier keeps the frontier and output invariants |
| Merging.HeadIsMinimum | Altion/Sort/Sorter.cs:266-269 | the record written is a minimum of the frontier |
| Merging.FinishKeeps | Altion/Sort/Sorter.cs:271-278 | retiring a finished reader removes its row, records it as finished, and keeps the frontier, output and order invariants |
| Merging.AdvanceKeeps | Altion/Sort/Sorter.cs:281-282 | refilling the head from its reader keeps the invariants, strictly decreases the unread lines and changes no run |
| Merging.DoneMeansAllWritten | Altion/Sort/Sorter.cs:264-276 | when every reader is finished, the output holds every record of every run |
| Merging.FindIndex | Altion/Sort/Sorter.cs:273 | the first row of the reader, or -1 when it has none |
| Merging.SortFrontier | Altion/Sort/Sorter.cs:266 | the frontier rearranged into comparer order |
| Merging.MergeReaders | Altion/Sort/Sorter.cs:259-283 | terminates; fails only on an empty frontier (no readers); otherwise writes a permutation of all the runs' records, sorted when every run is |
| ExternalSort.Sorter.InitializeStreamReaders | Altion/Sort/Sorter.cs:288-307 | succeeds exactly when every run file exists and has a first line; it then returns one reader per file, in order, and the frontier of first lines |
| ExternalSort.Sorter.CleanupRun | Altion/Sort/Sorter.cs:309-333 | succeeds exactly when the files exist and are distinct; it then removes exactly them and nothing else |
| ExternalSort.Sorter.CleanMissing | Altion/Sort/Sorter.cs:325-330 | a file already gone means a file that never existed or one named twice |
| ExternalSort.Sorter.CleanNext | Altion/Sort/Sorter.cs:325-330 | removing one more existing file extends the loop invariant |
| ExternalSort.Sorter.CleanDone | Altion/Sort/Sorter.cs:325-333 | after the loop, every file existed once and all are removed |
| ExternalSort.Sorter.Merge | Altion/Sort/Sorter.cs:253-286 | succeeds exactly when there is a file, all exist and have lines, and none repeats; it then outputs a permutation of the files' records, sorted when the runs are, and removes the files |
| Passes.Batches | Altion/Sort/Sorter.cs:217 | `Chunk(K)`: consecutive batches that flatten back to the list, every batch of 1..K files, every one but the last full |
| Passes.BatchCount | Altion/Sort/Sorter.cs:209-217 | with K ≥ 2 and more than K runs there are at least 2 and fewer batches than runs |
| Passes.BatchRange | Altion/Sort/Sorter.cs:217-221 | over run files 1..n, batch j holds the numbers right after those of the earlier batches |
| Passes.BatchAtRun | Altion/Sort/Sorter.cs:217-222 | batch j is a non-empty range of numbers within 1..n, and a single-file batch comes after more files than batches |
| Passes.AscendingRange | Altion/Sort/Sorter.cs:236-242 | an ascending listing of exactly the numbers 1..m is `1, 2, ..., m` |
| Passes.DeletedFiles | Altion/Sort/Sorter.cs:325-332 | deleting removes exactly the files named and leaves the others as they were |
| Passes.PassStart | Altion/Sort/Sorter.cs:217-218 | the pass invariant holds before the first batch |
| Passes.PassMoved | Altion/Sort/Sorter.cs:222-227 | renaming a single-file batch to run j + 1 keeps the pass invariant |
| Passes.PassMerged | Altion/Sort/Sorter.cs:229-233 | replacing a batch by its merge at run j + 1 keeps the pass invariant |
| Passes.PassEnd | Altion/Sort/Sorter.cs:234-242 | after the last batch the run files are exactly 1..m and hold the same records as 1..n did, sorted and non-empty when those were |
| Passes.RenumberedTwice | Altion/Sort/Sorter.cs:206-247 | two passes in a row compose into one renumbering |
| Passes.FilesBagAppend | Altion/Sort/Sorter.cs:217-234 | the records of two lists of files are the records of each |
| ExternalSort.Sorter.MergeRun | Altion/Sort/Sorter.cs:219-234 | the body of the pass loop for batch j keeps the pass invariant |
| ExternalSort.Sorter.MoveRun | Altion/Sort/Sorter.cs:222-227 | `File.Move` of a single-file batch: the file exists and the target does not; afterwards run j + 1 holds the file's content, the file is gone, every other run is unchanged, and the pass invariant holds for j + 1 |
| ExternalSort.Sorter.MergeBatch | Altion/Sort/Sorter.cs:229-233 | a batch merge keeps the pass invariant and fails only when a run read in the pass was empty |
| ExternalSort.Sorter.MergeBatches | Altion/Sort/Sorter.cs:217-234 | the loop over the batches ends with every batch turned into the runs 1..m |
| ExternalSort.AscendingKeys | Altion/Sort/Sorter.cs:236-242 | lists a set of numbers least first, each exactly once |
| ExternalSort.Sorter.ListSortedFiles | Altion/Sort/Sorter.cs:236-242 | lists the run files in ascending numeric order, each exactly once |
| ExternalSort.Sorter.MergePass | Altion/Sort/Sorter.cs:216-242 | turns runs 1..n (n > K) into runs 1..m with m = number of batches and 2 ≤ m < n, holding the same records, sorted and non-empty when the old runs were |
| ExternalSort.Sorter.FinalRun | Altion/Sort/Sorter.cs:209-214 | merges the last ≤ K runs into the destination: succeeds exactly when there is a run and none is empty |
| ExternalSort.Sorter.MergeFiles | Altion/Sort/Sorter.cs:202-251 | terminates because each pass strictly lowers the run count; the `mergeDone` exit is unreachable; succeeds exactly when there are runs and none is empty; the destination is a permutation of all runs' records, sorted when the runs are, and no run file remains |
| ExternalSort.SortSucceedsOne | Altion/Sort/Sorter.cs:37-43 | with a single chunk, the chunk is the whole source, and `Sort` succeeds exactly when it fits |
| ExternalSort.SortSucceedsMany | Altion/Sort/Sorter.cs:37-46 | with any other number of chunks, `Sort` succeeds exactly when the source is non-empty and every chunk fits |
| ExternalSort.ShortUnterminatedFails | Altion/Sort/Sorter.cs:106-158 | a non-empty source of at most C bytes without a final line end always fails: its last line is not counted, so the scratch array is one slot short |
| ExternalSort.ChunksTerminated | Altion/Sort/Sorter.cs:104-146 | when the source ends with `NewLineSign`, so does every chunk |
| ExternalSort.TerminatedSucceeds | Altion/Sort/Sorter.cs:35-46 | when the source ends with `NewLineSign`, `Sort` succeeds exactly when every line parses |
| ExternalSort.Sorter.SortRuns | Altion/Sort/Sorter.cs:45-46 | with other than one chunk: sorting every chunk and merging succeeds exactly when there are chunks and all fit; the destination is then a sorted permutation of the source's records and no chunk or run file remains |
| ExternalSort.Sorter.SortSingleChunk | Altion/Sort/Sorter.cs:37-43 | with a single chunk, sorting its file straight into the destination succeeds exactly when `Sort` should; the destination is then the chunk's records sorted, and the chunk file stays |
| ExternalSort.Sorter.Sort | Altion/Sort/Sorter.cs:30-47 | succeeds exactly when `SortSucceeds`; an empty source fails with `EmptyFrontier`; on success the destination is the source's records in comparer order, no run file remains, and only the single-chunk path leaves its chunk file behind |

## Left out

- Streams, `async`/`await`, buffer sizes, progress bars (including `GetMergeProgressBar`, lines 49-67) and the
  console message: they do not change what is written.
- `GetSourceStream` (lines 78-89): the source is taken to exist and is a parameter of `Sort`. Generating test
  data is not part of this model.
- `GetDestinationStream` (lines 69-76): `File.OpenWrite` on an existing, longer destination does not truncate
  it. The model writes the destination afresh; the same holds for `File.OpenWrite` on a run file (line 174).
- Byte-to-UTF-16 decoding and `StreamReader`'s `\r`/`\r\n` handling: a byte is read as the character with that
  code, and lines end only at `NewLineSign` (`\n`).
- `long.Parse` leniency (culture, leading/trailing white space, a `+` sign): only an optional `-` followed by
  decimal digits is accepted.
- Comparer.OrdinalCompare: returns only the sign of `string.Compare`, not its magnitude. Callers only test the
  sign, so nothing else depends on it.
- File names and paths: `{i}.altionunsorted`, `{i}.altionsorted`, the `.altiontmp` and `.removal` renames and
  `GetFullPath` are replaced by file numbers in two maps. Rename-then-delete in `CleanupRun` is one map removal.
- Stale files in the working directory from an earlier run, and directory listing of unrelated files: the model
  starts `Sort` with no run or chunk files.
- ExternalSort.Sorter.Sort: states nothing about the working directory or the scratch array after a failure,
  only that it failed. The source leaves partial files behind there.
- ExternalSort.Sorter.Sort: requires K ≥ 2 and C > 0. With K = 1 a pass never reduces the run count and
  `MergeFiles` does not terminate.
- ExternalSort.Sorter.MergeFiles: requires the run files to be exactly 1..n, which is what `SortFiles` hands it.
- ExternalSort.Sorter.MergePass: states success only in one direction (runs with lines ⇒ success). The failure
  case is carried by `MergeFiles`, whose contract is an if-and-only-if.
- ExternalSort.Sorter.MergeBatch: states the new directory through the pass invariant rather than as an exact
  map. The exact effect is stated by `Passes.PassMerged`.
- ExternalSort.Sorter.SortRuns, ExternalSort.Sorter.SortSingleChunk: the two branches of `Sort` (lines 45-46 and
  37-43), split into methods for the proof; the source has them inline.
- ExternalSort.Sorter.MergeBatches, ExternalSort.Sorter.MergeRun: the foreach loop of lines 219-234 and its body,
  split out of `MergeFiles` for the proof.
- ExternalSort.Sorter.WriteChunks, ExternalSort.Sorter.ReadChunk, ExternalSort.Sorter.FillBuffer,
  ExternalSort.Sorter.ReadToLineEnd: the loops of `SplitFile`, split into methods; the byte buffer stays an
  `array<byte>`.
- `Array.Sort` is modelled by its result, the one sorted arrangement of the slots, not by introsort. The
  comparer is a total order, so instability cannot be observed.
