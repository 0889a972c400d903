/**
 * The external sort itself (`Sorter`): split the source into chunk files, sort each chunk
 * in the scratch array, then merge the sorted runs in passes of `FilesMergeChunkSize`
 * until one output remains.
 *
 * The operative directory is modelled by two maps from file number to contents: the
 * `{i}.altionunsorted` chunk files hold bytes, the `{i}.altionsorted` run files hold the
 * records on their lines (each written by `ToFileRow` and read back by `FromString`, which
 * is the identity on them; see `Records.ParsedLineRoundTrip`).
 */
module ExternalSort {
  import opened Results
  import opened Seqs
  import opened Records
  import opened Sorting
  import opened Lines
  import opened Splitting
  import opened Merging
  import opened Passes

  /** The chunk files `SplitFile` creates: file i holds the i-th chunk, for i = 1..n. */
  function ChunkFiles(cs: seq<seq<byte>>): (files: map<nat, seq<byte>>)
    ensures forall k :: k in files <==> 1 <= k <= |cs|
    ensures forall k :: 1 <= k <= |cs| ==> files[k] == cs[k - 1]
  {
    if cs == [] then map[]
    else
      var init := cs[..|cs| - 1];
      assert forall k :: 0 <= k < |init| ==> init[k] == cs[k];
      ChunkFiles(init)[|cs| := cs[|cs| - 1]]
  }

  lemma ChunkFilesSnoc(base: map<nat, seq<byte>>, cs: seq<seq<byte>>, c: seq<byte>)
    ensures base + ChunkFiles(cs + [c]) == (base + ChunkFiles(cs))[|cs| + 1 := c]
  {
    assert (cs + [c])[..|cs|] == cs;
  }

  /** Every run file `keys` names exists and has a first line. */
  predicate Readable(files: map<nat, seq<Record>>, keys: seq<nat>)
  {
    forall i :: 0 <= i < |keys| ==> keys[i] in files && files[keys[i]] != []
  }

  /** The contents of the run files `keys`, in that order. */
  function Runs(files: map<nat, seq<Record>>, keys: seq<nat>): seq<seq<Record>>
    requires forall i :: 0 <= i < |keys| ==> keys[i] in files
  {
    seq(|keys|, i requires 0 <= i < |keys| => files[keys[i]])
  }

  lemma {:induction false} RunsBag(files: map<nat, seq<Record>>, keys: seq<nat>)
    requires forall i :: 0 <= i < |keys| ==> keys[i] in files
    ensures Bag(Runs(files, keys)) == FilesBag(files, keys)
  {
    if keys != [] {
      assert Runs(files, keys)[1..] == Runs(files, keys[1..]);
      RunsBag(files, keys[1..]);
    }
  }

  /** The run files 1..m can all be opened and read exactly when every run file has lines. */
  lemma ReadableRange(files: map<nat, seq<Record>>, m: nat)
    requires forall k :: k in files <==> 1 <= k <= m
    ensures Readable(files, Range(1, m + 1)) <==> NonEmptyRuns(files)
  {
    var keys := Range(1, m + 1);
    if NonEmptyRuns(files) {
      assert forall i :: 0 <= i < |keys| ==> keys[i] in files;
    } else {
      var k :| k in files && files[k] == [];
      assert keys[k - 1] == k;
    }
  }

  lemma DeletedAll<V>(files: map<nat, V>, m: nat)
    requires forall k :: k in files <==> 1 <= k <= m
    ensures Deleted(files, Range(1, m + 1)) == map[]
  {
    DeletedFiles(files, Range(1, m + 1));
    RangeMembers(1, m + 1);
    assert Deleted(files, Range(1, m + 1)).Keys == {};
  }

  lemma OpenedSorted(files: map<nat, seq<Record>>, keys: seq<nat>)
    requires forall i :: 0 <= i < |keys| ==> keys[i] in files
    requires RunFilesSorted(files)
    ensures RunsSorted(Opened(Runs(files, keys)))
  {
  }

  /** A chunk `SortFile` can sort with a scratch array of `capacity` slots. */
  predicate Fits(chunk: seq<byte>, capacity: nat)
  {
    |LinesOf(chunk)| <= capacity && ParseAll(LinesOf(chunk)).Ok?
  }

  /** Every chunk file `keys` names exists and fits. */
  predicate AllFit(chunks: map<nat, seq<byte>>, keys: seq<nat>, capacity: nat)
  {
    forall k :: 0 <= k < |keys| ==> keys[k] in chunks && Fits(chunks[keys[k]], capacity)
  }

  lemma AllFitSnoc(chunks: map<nat, seq<byte>>, keys: seq<nat>, x: nat, capacity: nat)
    requires AllFit(chunks, keys, capacity) && x in chunks && Fits(chunks[x], capacity)
    ensures AllFit(chunks, keys + [x], capacity)
  {
    var t := keys + [x];
    forall k | 0 <= k < |t| ensures t[k] in chunks && Fits(chunks[t[k]], capacity) {
      if k < |keys| {
        assert t[k] == keys[k];
      }
    }
  }

  /** The run file `SortFile` writes for a chunk whose lines all parse: their records, sorted. */
  function SortedChunk(chunk: seq<byte>): seq<Record>
    requires ParseAll(LinesOf(chunk)).Ok?
  {
    SortRecords(ParseAll(LinesOf(chunk)).value)
  }

  /**
   * The run files `SortFiles` writes for the chunk files `keys` (used where every one of
   * them exists and parses; any other is passed over).
   */
  function SortedChunks(chunks: map<nat, seq<byte>>, keys: seq<nat>): map<nat, seq<Record>>
  {
    if keys == [] then map[]
    else
      var last := keys[|keys| - 1];
      var prev := SortedChunks(chunks, keys[..|keys| - 1]);
      if last in chunks && ParseAll(LinesOf(chunks[last])).Ok? then prev[last := SortedChunk(chunks[last])]
      else prev
  }

  lemma SortedChunksNext(base: map<nat, seq<Record>>, chunks: map<nat, seq<byte>>, keys: seq<nat>, i: nat, capacity: nat)
    requires i < |keys| && AllFit(chunks, keys[..i + 1], capacity)
    ensures AllFit(chunks, keys[..i], capacity)
    ensures base + SortedChunks(chunks, keys[..i + 1])
            == (base + SortedChunks(chunks, keys[..i]))[keys[i] := SortedChunk(chunks[keys[i]])]
  {
    var next := keys[..i + 1];
    assert next[..i] == keys[..i] && next[i] == keys[i];
  }

  lemma ChunkFilesOne(cs: seq<seq<byte>>)
    requires |cs| == 1
    ensures ChunkFiles(cs) == map[1 := cs[0]]
  {
    assert cs[..0] == [];
  }

  lemma ChunkFileAt(cs: seq<seq<byte>>, k: nat)
    requires 1 <= k <= |cs|
    ensures k in ChunkFiles(cs) && ChunkFiles(cs)[k] == cs[k - 1]
  {
  }

  /** Every chunk fits a scratch array of `capacity` slots. */
  predicate ChunksFit(cs: seq<seq<byte>>, capacity: nat)
  {
    forall k :: 0 <= k < |cs| ==> Fits(cs[k], capacity)
  }

  /** The chunk files 1..n all fit exactly when every chunk does. */
  lemma AllFitChunks(cs: seq<seq<byte>>, capacity: nat)
    ensures AllFit(ChunkFiles(cs), Range(1, |cs| + 1), capacity) <==> ChunksFit(cs, capacity)
  {
    var keys, files := Range(1, |cs| + 1), ChunkFiles(cs);
    forall k | 0 <= k < |cs| ensures keys[k] in files && files[keys[k]] == cs[k] {
      ChunkFileAt(cs, k + 1);
    }
  }

  /** The chunks' lines all parse exactly when each chunk's lines do. */
  lemma {:induction false} ParseChunks(cs: seq<seq<byte>>)
    ensures ParseAll(FlatMap(cs, LinesOf)).Ok? <==> forall k :: 0 <= k < |cs| ==> ParseAll(LinesOf(cs[k])).Ok?
  {
    if cs != [] {
      var tail := cs[1..];
      ParseChunks(tail);
      assert FlatMap(cs, LinesOf) == LinesOf(cs[0]) + FlatMap(tail, LinesOf);
      ParseAllAppend(LinesOf(cs[0]), FlatMap(tail, LinesOf));
      assert forall k :: 0 <= k < |tail| ==> tail[k] == cs[k + 1];
    }
  }

  /** The source's lines are its chunks' lines, in order. */
  lemma SourceLines(source: seq<byte>, C: nat)
    requires C > 0
    ensures LinesOf(source) == FlatMap(Chunks(source, C), LinesOf)
  {
    ChunksConcat(source, C);
    ChunksShape(source, C);
    ChunkLines(Chunks(source, C));
  }

  /** A non-empty chunk sorts into a non-empty run. */
  lemma SortedChunkNonEmpty(chunk: seq<byte>)
    requires chunk != [] && ParseAll(LinesOf(chunk)).Ok?
    ensures SortedChunk(chunk) != []
  {
    assert LinesOf(chunk) != [];
    var rows := ParseAll(LinesOf(chunk)).value;
    assert |multiset(SortedChunk(chunk))| == |rows| > 0;
  }

  /** `vals` lists the run of each chunk in turn (every chunk's lines parse). */
  predicate RunList(cs: seq<seq<byte>>, vals: seq<seq<Record>>)
  {
    |vals| == |cs| && forall k :: 0 <= k < |cs| ==> ParseAll(LinesOf(cs[k])).Ok? && vals[k] == SortedChunk(cs[k])
  }

  /** The run of each chunk in turn. */
  function SortedChunkList(cs: seq<seq<byte>>): (vals: seq<seq<Record>>)
    requires forall k :: 0 <= k < |cs| ==> ParseAll(LinesOf(cs[k])).Ok?
    ensures RunList(cs, vals)
  {
    seq(|cs|, k requires 0 <= k < |cs| && ParseAll(LinesOf(cs[k])).Ok? => SortedChunk(cs[k]))
  }
  /**
   * The run files 1..m for the first m chunks hold, between them, the records of those
   * chunks' lines.
   */
  lemma {:induction false} ChunkRunsBag(runs: map<nat, seq<Record>>, cs: seq<seq<byte>>, vals: seq<seq<Record>>, m: nat)
    requires m <= |cs| && RunList(cs, vals)
    requires forall k :: 1 <= k <= |cs| ==> k in runs && runs[k] == vals[k - 1]
    ensures ParseAll(FlatMap(cs[..m], LinesOf)).Ok?
    ensures FilesBag(runs, Range(1, m + 1)) == multiset(ParseAll(FlatMap(cs[..m], LinesOf)).value)
  {
    if m == 0 {
      assert cs[..0] == [];
    } else {
      ChunkRunsBag(runs, cs, vals, m - 1);
      FilesBagSnoc(runs, m);
      TakeSnoc(cs, m - 1);
      ParseNextChunk(cs[..m - 1], cs[m - 1]);
    }
  }

  lemma FilesBagSnoc(files: map<nat, seq<Record>>, m: nat)
    requires m >= 1 && m in files
    ensures FilesBag(files, Range(1, m + 1)) == FilesBag(files, Range(1, m)) + multiset(files[m])
  {
    RangeSnoc(1, m);
    FilesBagAppend(files, Range(1, m), [m]);
    FilesBagOne(files, m);
  }

  /** One more chunk: its lines' records join those of the chunks before it. */
  lemma ParseNextChunk(init: seq<seq<byte>>, last: seq<byte>)
    requires ParseAll(FlatMap(init, LinesOf)).Ok? && ParseAll(LinesOf(last)).Ok?
    ensures ParseAll(FlatMap(init + [last], LinesOf)).Ok?
    ensures multiset(ParseAll(FlatMap(init + [last], LinesOf)).value)
            == multiset(ParseAll(FlatMap(init, LinesOf)).value) + multiset(SortedChunk(last))
  {
    FlatMapAppend(init, [last], LinesOf);
    FlatMapOne(last, LinesOf);
    ParseAllAppend(FlatMap(init, LinesOf), LinesOf(last));
  }

  /**
   * The run files `SortFiles` writes for the chunk files 1..m: run k is chunk k, sorted
   * (`vals` lists the sorted chunks).
   */
  lemma {:induction false} RunsOfChunks(cs: seq<seq<byte>>, vals: seq<seq<Record>>, m: nat, runs: map<nat, seq<Record>>)
    requires m <= |cs| && RunList(cs, vals)
    requires runs == SortedChunks(ChunkFiles(cs), Range(1, m + 1))
    ensures forall k :: k in runs <==> 1 <= k <= m
    ensures forall k :: 1 <= k <= m ==> runs[k] == vals[k - 1]
  {
    if m > 0 {
      var prev := SortedChunks(ChunkFiles(cs), Range(1, m));
      RunsOfChunks(cs, vals, m - 1, prev);
      NextRun(cs, m, runs);
      ExtendNumbered(vals, m, prev, runs);
    }
  }

  lemma ExtendNumbered<V>(vals: seq<V>, m: nat, prev: map<nat, V>, runs: map<nat, V>)
    requires 0 < m <= |vals|
    requires forall k :: k in prev <==> 1 <= k < m
    requires forall k :: 1 <= k < m ==> prev[k] == vals[k - 1]
    requires runs == prev[m := vals[m - 1]]
    ensures forall k :: k in runs <==> 1 <= k <= m
    ensures forall k :: 1 <= k <= m ==> runs[k] == vals[k - 1]
  {
  }

  lemma NextRun(cs: seq<seq<byte>>, m: nat, runs: map<nat, seq<Record>>)
    requires 0 < m <= |cs|
    requires runs == SortedChunks(ChunkFiles(cs), Range(1, m + 1))
    ensures ParseAll(LinesOf(cs[m - 1])).Ok? ==>
              runs == SortedChunks(ChunkFiles(cs), Range(1, m))[m := SortedChunk(cs[m - 1])]
    ensures !ParseAll(LinesOf(cs[m - 1])).Ok? ==> runs == SortedChunks(ChunkFiles(cs), Range(1, m))
  {
    RangeInit(1, m + 1);
    ChunkFileAt(cs, m);
  }



  /**
   * The run files `SortFiles` leaves for non-empty chunks whose lines all parse: each sorted,
   * none empty, and between them holding exactly the records of the chunks' lines.
   */
  lemma ChunkRuns(cs: seq<seq<byte>>, runs: map<nat, seq<Record>>)
    requires forall k :: 0 <= k < |cs| ==> cs[k] != [] && ParseAll(LinesOf(cs[k])).Ok?
    requires runs == SortedChunks(ChunkFiles(cs), Range(1, |cs| + 1))
    ensures forall k :: k in runs <==> 1 <= k <= |cs|
    ensures RunFilesSorted(runs) && NonEmptyRuns(runs)
    ensures ParseAll(FlatMap(cs, LinesOf)).Ok?
    ensures FilesBag(runs, Range(1, |cs| + 1)) == multiset(ParseAll(FlatMap(cs, LinesOf)).value)
  {
    var vals := SortedChunkList(cs);
    ChunkRunFiles(cs, vals, runs);
    ChunkRunsBag(runs, cs, vals, |cs|);
    assert cs[..|cs|] == cs;
  }

  lemma ChunkRunFiles(cs: seq<seq<byte>>, vals: seq<seq<Record>>, runs: map<nat, seq<Record>>)
    requires RunList(cs, vals) && forall k :: 0 <= k < |cs| ==> cs[k] != []
    requires runs == SortedChunks(ChunkFiles(cs), Range(1, |cs| + 1))
    ensures forall k :: k in runs <==> 1 <= k <= |cs|
    ensures forall k :: 1 <= k <= |cs| ==> k in runs && runs[k] == vals[k - 1]
    ensures RunFilesSorted(runs) && NonEmptyRuns(runs)
  {
    RunsOfChunks(cs, vals, |cs|, runs);
    forall k | k in runs ensures Sorted(runs[k]) && runs[k] != [] {
      SortedChunkNonEmpty(cs[k - 1]);
    }
  }


  /**
   * `Sort` succeeds when the source is non-empty (an empty one leaves `Merge` no first row)
   * and every chunk fits the scratch array sized by the largest recorded row count.
   */
  predicate SortSucceeds(source: seq<byte>, C: nat)
    requires C > 0
  {
    var cs := Chunks(source, C);
    source != [] && ChunksFit(cs, MaxRows(cs, C))
  }
  /** With a single chunk, `Sort` succeeds exactly when the whole source fits. */
  lemma SortSucceedsOne(source: seq<byte>, C: nat)
    requires C > 0 && |Chunks(source, C)| == 1
    ensures source == Chunks(source, C)[0]
    ensures SortSucceeds(source, C) <==> Fits(source, MaxRows(Chunks(source, C), C))
  {
    ChunksConcat(source, C);
    assert Chunks(source, C) == [Chunks(source, C)[0]];
  }

  /** With any other number of chunks, `Sort` succeeds exactly when there are chunks and all fit. */
  lemma SortSucceedsMany(source: seq<byte>, C: nat)
    requires C > 0 && |Chunks(source, C)| != 1
    ensures SortSucceeds(source, C) <==> source != [] && ChunksFit(Chunks(source, C), MaxRows(Chunks(source, C), C))
  {
  }


  /**
   * A source of at most C bytes without a final NewLineSign is one chunk whose last line is
   * not counted, so the scratch array is one slot short and `Sort` always fails.
   */
  lemma ShortUnterminatedFails(source: seq<byte>, C: nat)
    requires C > 0 && 0 < |source| <= C && !EndsInNewLine(source)
    ensures !SortSucceeds(source, C)
  {
    var cs := Chunks(source, C);
    assert source[..ChunkEnd(source, C)] == source;
    assert source[ChunkEnd(source, C)..] == [];
    assert cs == [source];
    MaxRowsBound(cs, C);
    ShortChunkRows(source, C);
    assert !Fits(cs[0], MaxRows(cs, C));
  }

  /**
   * When the source ends with NewLineSign, every row is counted and `Sort` succeeds exactly
   * when every line of the source parses.
   */
  lemma TerminatedSucceeds(source: seq<byte>, C: nat)
    requires C > 0 && EndsInNewLine(source)
    ensures SortSucceeds(source, C) <==> ParseAll(LinesOf(source)).Ok?
  {
    var cs := Chunks(source, C);
    ChunksTerminated(source, C);
    ChunkRows(source, C);
    MaxRowsBound(cs, C);
    assert forall k :: 0 <= k < |cs| ==> (Fits(cs[k], MaxRows(cs, C)) <==> ParseAll(LinesOf(cs[k])).Ok?);
    ParseChunks(cs);
    SourceLines(source, C);
  }

  /** When the source ends with NewLineSign, so does every chunk, the last one included. */
  lemma ChunksTerminated(source: seq<byte>, C: nat)
    requires C > 0 && EndsInNewLine(source)
    ensures forall k :: 0 <= k < |Chunks(source, C)| ==> EndsInNewLine(Chunks(source, C)[k])
  {
    var cs := Chunks(source, C);
    ChunksShape(source, C);
    ChunksNonEmpty(source, C);
    ChunksConcat(source, C);
    FlattenLast(cs);
    EndsAppend(Flatten(cs[..|cs| - 1]), cs[|cs| - 1]);
  }

  lemma FlattenLast<T>(ss: seq<seq<T>>)
    requires ss != []
    ensures Flatten(ss) == Flatten(ss[..|ss| - 1]) + ss[|ss| - 1]
  {
    assert ss == ss[..|ss| - 1] + [ss[|ss| - 1]];
    FlattenAppend(ss[..|ss| - 1], ss[|ss| - 1]);
  }

  lemma EndsAppend(a: seq<byte>, b: seq<byte>)
    requires b != []
    ensures EndsInNewLine(a + b) <==> EndsInNewLine(b)
  {
  }

  /**
   * Before round i of `SortFiles`: the chunk file named next is still there exactly when it
   * existed and was not named before, and then it is as it was.
   */
  lemma PendingNext(chunks: map<nat, seq<byte>>, files: seq<nat>, i: nat)
    requires i < |files| && Distinct(files[..i])
    ensures files[i] in Deleted(chunks, files[..i]) <==> files[i] in chunks && Distinct(files[..i + 1])
    ensures files[i] in Deleted(chunks, files[..i]) ==> Deleted(chunks, files[..i])[files[i]] == chunks[files[i]]
  {
    var done, next := files[..i], files[..i + 1];
    DeletedFiles(chunks, done);
    if files[i] in done {
      var k :| 0 <= k < i && done[k] == files[i];
      assert next[k] == next[i];
    } else {
      forall a, b | 0 <= a < b < i + 1 ensures next[a] != next[b] {
        assert next[a] == done[a];
        if b < i {
          assert next[b] == done[b];
        }
      }
    }
  }

  /** A round of `SortFiles` that fails means a name repeats or a chunk does not fit. */
  lemma SortFilesFails(chunks: map<nat, seq<byte>>, files: seq<nat>, i: nat, capacity: nat)
    requires i < |files|
    requires !(files[i] in chunks && Distinct(files[..i + 1]) && Fits(chunks[files[i]], capacity))
    ensures !(Distinct(files) && AllFit(chunks, files, capacity))
  {
  }

  /** The numbers in `keys`, least first. */
  method AscendingKeys(keys: set<nat>) returns (listed: seq<nat>)
    ensures Ascending(listed)
    ensures forall k :: k in listed <==> k in keys
  {
    listed := [];
    var remaining := keys;
    while remaining != {}
      invariant Listing(keys, listed, remaining)
      decreases |remaining|
    {
      var some :| some in remaining;
      HasLeast(remaining, some);
      var least :| least in remaining && forall k :: k in remaining ==> least <= k;
      ListLeast(keys, listed, remaining, least);
      listed := listed + [least];
      remaining := remaining - {least};
    }
  }

  /** Part way through `AscendingKeys`: `listed` holds, in order, the keys below all of `remaining`. */
  ghost predicate Listing(keys: set<nat>, listed: seq<nat>, remaining: set<nat>)
  {
    && Ascending(listed)
    && (forall k :: k in listed <==> k in keys && k !in remaining)
    && remaining <= keys
    && (forall k, l :: k in listed && l in remaining ==> k < l)
  }

  lemma ListLeast(keys: set<nat>, listed: seq<nat>, remaining: set<nat>, least: nat)
    requires Listing(keys, listed, remaining)
    requires least in remaining && forall k :: k in remaining ==> least <= k
    ensures Listing(keys, listed + [least], remaining - {least})
  {
    AscendingSnoc(listed, least);
  }

  /** A round of `SortFiles` that succeeds extends every part of the loop's state by one file. */
  lemma SortFilesNext(chunks: map<nat, seq<byte>>, base: map<nat, seq<Record>>, files: seq<nat>, i: nat,
                      capacity: nat)
    requires i < |files| && AllFit(chunks, files[..i], capacity)
    requires files[i] in chunks && Fits(chunks[files[i]], capacity)
    ensures files[..i + 1] == files[..i] + [files[i]]
    ensures AllFit(chunks, files[..i + 1], capacity)
    ensures Deleted(chunks, files[..i + 1]) == Deleted(chunks, files[..i]) - {files[i]}
    ensures base + SortedChunks(chunks, files[..i + 1])
            == (base + SortedChunks(chunks, files[..i]))[files[i] := SortedChunk(chunks[files[i]])]
  {
    TakeSnoc(files, i);
    AllFitSnoc(chunks, files[..i], files[i], capacity);
    DeleteNext(chunks, files, i);
    SortedChunksNext(base, chunks, files, i, capacity);
  }

  class Sorter {
    /** `ChunkFileSize`: the bytes a chunk holds before it is extended to a line end. */
    const chunkSize: nat
    /** `FilesMergeChunkSize`: how many runs one merge reads. */
    const mergeWidth: nat
    /** `_unsortedRows`: the scratch array `SortFile` fills; a null slot is `None`. */
    var unsortedRows: array<Option<Record>>
    /** The `{i}.altionunsorted` files. */
    var unsortedFiles: map<nat, seq<byte>>
    /** The `{i}.altionsorted` files. */
    var sortedFiles: map<nat, seq<Record>>
    /** `sorted.altion`, as the records on its lines. */
    var destination: seq<Record>

    constructor (chunkSize: nat, mergeWidth: nat)
      requires chunkSize > 0 && mergeWidth >= 2
      ensures this.chunkSize == chunkSize && this.mergeWidth == mergeWidth
      ensures unsortedRows.Length == 0
      ensures unsortedFiles == map[] && sortedFiles == map[] && destination == []
    {
      this.chunkSize := chunkSize;
      this.mergeWidth := mergeWidth;
      unsortedRows := new Option<Record>[0];
      unsortedFiles := map[];
      sortedFiles := map[];
      destination := [];
    }

    /**
     * The whole sort: splits the source into chunk files; a single chunk is sorted straight
     * into the destination (its chunk file stays behind), otherwise every chunk is sorted
     * into a run file and the runs are merged into the destination.
     */
    method Sort(source: seq<byte>) returns (r: Result<()>)
      requires chunkSize > 0 && mergeWidth >= 2
      requires unsortedFiles == map[] && sortedFiles == map[]
      modifies this
      ensures r.Ok? <==> SortSucceeds(source, chunkSize)
      ensures source == [] ==> r == Err(EmptyFrontier)
      ensures r.Ok? ==> ParseAll(LinesOf(source)).Ok?
      ensures r.Ok? ==> destination == SortRecords(ParseAll(LinesOf(source)).value)
      ensures r.Ok? ==> sortedFiles == map[]
      ensures r.Ok? ==> unsortedFiles == if |Chunks(source, chunkSize)| == 1 then map[1 := source] else map[]
    {
      var files := SplitFile(source);
      ghost var cs := Chunks(source, chunkSize);
      var shouldSkipMerge := |files| == 1;
      if shouldSkipMerge {
        SortSucceedsOne(source, chunkSize);
        EmptyUnion(ChunkFiles(cs));
        ChunkFilesOne(cs);
        r := SortSingleChunk(files, source);
        return;
      }
      SortSucceedsMany(source, chunkSize);
      ChunksNonEmpty(source, chunkSize);
      SourceLines(source, chunkSize);
      r := SortRuns(files, cs);
      if r.Ok? {
        SortedPermutationIsSortRecords(ParseAll(LinesOf(source)).value, destination);
      }
    }

    /**
     * The shortcut of `Sort` for a single chunk: its file is sorted straight into the
     * destination and stays behind.
     */
    method SortSingleChunk(files: seq<nat>, ghost source: seq<byte>) returns (r: Result<()>)
      requires chunkSize > 0 && |Chunks(source, chunkSize)| == 1 && files == Range(1, 2)
      requires unsortedFiles == map[1 := Chunks(source, chunkSize)[0]]
      requires unsortedRows.Length == MaxRows(Chunks(source, chunkSize), chunkSize)
      requires forall k :: 0 <= k < unsortedRows.Length ==> unsortedRows[k] == None
      modifies this, unsortedRows
      ensures r.Ok? <==> SortSucceeds(source, chunkSize)
      ensures r.Ok? ==> ParseAll(LinesOf(source)).Ok? && destination == SortedChunk(source)
      ensures unsortedFiles == old(unsortedFiles) && sortedFiles == old(sortedFiles)
      ensures unsortedRows == old(unsortedRows)
    {
      SortSucceedsOne(source, chunkSize);
      var run := SortFile(unsortedFiles[files[0]]);
      if run.Err? {
        r := Err(run.error);
        return;
      }
      destination := run.value;
      r := Ok(());
    }

    /**
     * The rest of `Sort` when there is not exactly one chunk: every chunk file is sorted into
     * its run file, then the runs are merged into the destination.
     */
    method SortRuns(files: seq<nat>, ghost cs: seq<seq<byte>>) returns (r: Result<()>)
      requires mergeWidth >= 2
      requires |cs| != 1 && files == Range(1, |cs| + 1)
      requires forall k :: 0 <= k < |cs| ==> cs[k] != []
      requires unsortedFiles == ChunkFiles(cs) && sortedFiles == map[]
      requires forall k :: 0 <= k < unsortedRows.Length ==> unsortedRows[k] == None
      modifies this, unsortedRows
      ensures r.Ok? <==> cs != [] && ChunksFit(cs, unsortedRows.Length)
      ensures cs == [] ==> r == Err(EmptyFrontier)
      ensures r.Ok? ==> ParseAll(FlatMap(cs, LinesOf)).Ok?
      ensures r.Ok? ==> multiset(destination) == multiset(ParseAll(FlatMap(cs, LinesOf)).value) && Sorted(destination)
      ensures r.Ok? ==> sortedFiles == map[] && unsortedFiles == map[]
      ensures unsortedRows == old(unsortedRows)
    {
      AllFitChunks(cs, unsortedRows.Length);
      RangeDistinct(1, |cs| + 1);
      var sorted := SortFiles(files);
      if sorted.Err? {
        r := Err(sorted.error);
        return;
      }
      EmptyUnion(SortedChunks(ChunkFiles(cs), files));
      assert forall k :: 0 <= k < |cs| ==> Fits(cs[k], unsortedRows.Length);
      ChunkRuns(cs, sortedFiles);
      DeletedAll(ChunkFiles(cs), |cs|);
      r := MergeFiles(sorted.value);
    }

    /**
     * Cuts the source into the chunk files 1, 2, ..., n and allocates the scratch array
     * with as many slots as the largest row count recorded for a chunk.
     */
    method SplitFile(source: seq<byte>) returns (filenames: seq<nat>)
      requires chunkSize > 0
      modifies this
      ensures filenames == Range(1, |Chunks(source, chunkSize)| + 1)
      ensures unsortedFiles == old(unsortedFiles) + ChunkFiles(Chunks(source, chunkSize))
      ensures fresh(unsortedRows) && unsortedRows.Length == MaxRows(Chunks(source, chunkSize), chunkSize)
      ensures forall k :: 0 <= k < unsortedRows.Length ==> unsortedRows[k] == None
      ensures sortedFiles == old(sortedFiles) && destination == old(destination)
    {
      var buffer := new byte[chunkSize](_ => 0);
      var directory, maxUnsortedRows;
      filenames, directory, maxUnsortedRows := WriteChunks(source, buffer, unsortedFiles);
      unsortedFiles := directory;
      unsortedRows := new Option<Record>[maxUnsortedRows](_ => None);
    }

    /**
     * The outer loop of `SplitFile`: reads chunk after chunk through the buffer and creates
     * the files 1, 2, ... in `directory`, keeping the largest row count seen.
     */
    static method WriteChunks(source: seq<byte>, buffer: array<byte>, files: map<nat, seq<byte>>)
      returns (filenames: seq<nat>, directory: map<nat, seq<byte>>, maxUnsortedRows: nat)
      requires buffer.Length > 0
      modifies buffer
      ensures filenames == Range(1, |Chunks(source, buffer.Length)| + 1)
      ensures directory == files + ChunkFiles(Chunks(source, buffer.Length))
      ensures maxUnsortedRows == MaxRows(Chunks(source, buffer.Length), buffer.Length)
    {
      var fileSize := buffer.Length;
      filenames := [];
      maxUnsortedRows := 0;
      var position := 0;
      var currentFile := 0;
      directory := files;
      ghost var written: seq<seq<byte>> := [];
      SplittingStart(source, fileSize, files);
      while position < |source|
        invariant Splitting(source, fileSize, files, position, written, filenames, directory, maxUnsortedRows)
        invariant currentFile == |written|
        decreases |source| - position
      {
        var chunk, next, totalRows := ReadChunk(source, position, buffer);
        ghost var filenames0, directory0, maxUnsortedRows0 := filenames, directory, maxUnsortedRows;
        currentFile := currentFile + 1;
        directory := directory[currentFile := chunk];  // File.Create

        if totalRows > maxUnsortedRows {
          maxUnsortedRows := totalRows;
        }
        filenames := filenames + [currentFile];
        NextChunk(source, fileSize, files, position, next, chunk, written, filenames0, directory0, maxUnsortedRows0,
                  filenames, directory, maxUnsortedRows);
        written := written + [chunk];
        position := next;
      }
      SplittingDone(source, fileSize, files, position, written, filenames, directory, maxUnsortedRows);
    }

    /** The invariant of `SplitFile`'s outer loop: the chunks written so far are the first ones. */
    static ghost predicate Splitting(source: seq<byte>, C: nat, files: map<nat, seq<byte>>, position: nat,
                                     written: seq<seq<byte>>, filenames: seq<nat>,
                                     directory: map<nat, seq<byte>>, maxRows: nat)
    {
      && C > 0 && position <= |source|
      && written + Chunks(source[position..], C) == Chunks(source, C)
      && filenames == Range(1, |written| + 1)
      && directory == files + ChunkFiles(written)
      && maxRows == MaxRows(written, C)
    }

    static lemma SplittingStart(source: seq<byte>, C: nat, files: map<nat, seq<byte>>)
      requires C > 0
      ensures Splitting(source, C, files, 0, [], [], files, 0)
    {
      assert source[0..] == source;
      assert files + ChunkFiles([]) == files;
    }

    static lemma SplittingDone(source: seq<byte>, C: nat, files: map<nat, seq<byte>>, position: nat,
                               written: seq<seq<byte>>, filenames: seq<nat>,
                               directory: map<nat, seq<byte>>, maxRows: nat)
      requires Splitting(source, C, files, position, written, filenames, directory, maxRows)
      requires position >= |source|
      ensures filenames == Range(1, |Chunks(source, C)| + 1)
      ensures directory == files + ChunkFiles(Chunks(source, C))
      ensures maxRows == MaxRows(Chunks(source, C), C)
    {
      assert source[position..] == [];
      assert written + [] == written;
    }

    /** The bookkeeping of one round of `SplitFile`'s outer loop. */
    static lemma NextChunk(source: seq<byte>, C: nat, files: map<nat, seq<byte>>, position: nat, next: nat,
                           chunk: seq<byte>, written: seq<seq<byte>>, filenames: seq<nat>,
                           directory: map<nat, seq<byte>>, maxRows: nat,
                           filenames': seq<nat>, directory': map<nat, seq<byte>>, maxRows': nat)
      requires Splitting(source, C, files, position, written, filenames, directory, maxRows)
      requires position < |source| && next == position + ChunkEnd(source[position..], C)
      requires chunk == source[position..next]
      requires filenames' == filenames + [|written| + 1] && directory' == directory[|written| + 1 := chunk]
      requires maxRows' == if CountedRows(chunk, C) > maxRows then CountedRows(chunk, C) else maxRows
      ensures Splitting(source, C, files, next, written + [chunk], filenames', directory', maxRows')
    {
      ChunksStep(source, C, position, next, chunk, written);
      RangeSnoc(1, |written| + 1);
      ChunkFilesSnoc(files, written, chunk);
      MaxRowsSnoc(written, chunk, C);
    }

    /** The chunk read at `position` is the next one of the source's chunks. */
    static lemma ChunksStep(source: seq<byte>, C: nat, position: nat, next: nat, chunk: seq<byte>,
                            written: seq<seq<byte>>)
      requires C > 0 && position < |source| && next == position + ChunkEnd(source[position..], C)
      requires chunk == source[position..next]
      requires written + Chunks(source[position..], C) == Chunks(source, C)
      ensures written + [chunk] + Chunks(source[next..], C) == Chunks(source, C)
    {
      ChunksAt(source, C, position, next);
      PrefixStep(written, Chunks(source, C), Chunks(source[position..], C), chunk, Chunks(source[next..], C));
    }

    /** The chunks from `position` on are the one ending at `next`, then those from `next` on. */
    static lemma ChunksAt(source: seq<byte>, C: nat, position: nat, next: nat)
      requires C > 0 && position < |source| && next == position + ChunkEnd(source[position..], C)
      ensures Chunks(source[position..], C) == [source[position..next]] + Chunks(source[next..], C)
    {
      var rest := source[position..];
      assert Chunks(rest, C) == [rest[..ChunkEnd(rest, C)]] + Chunks(rest[ChunkEnd(rest, C)..], C);
      SliceOfSlice(source, position, next);
    }

    /**
     * One round of `SplitFile`'s outer loop: fill the buffer with up to C bytes, then read
     * on to the next NewLineSign unless the buffer's last byte is one.
     */
    static method ReadChunk(source: seq<byte>, position: nat, buffer: array<byte>)
      returns (chunk: seq<byte>, next: nat, totalRows: nat)
      requires 0 < buffer.Length && position < |source|
      modifies buffer
      ensures next == position + ChunkEnd(source[position..], buffer.Length)
      ensures chunk == source[position..next]
      ensures totalRows == CountedRows(chunk, buffer.Length)
    {
      var fileSize := buffer.Length;
      var runBytesRead;
      runBytesRead, totalRows := FillBuffer(source, position, buffer);
      // Reads the last byte of the buffer even when the source ended before filling it:
      // the stale byte is harmless, since at the end of the source nothing more is read.
      var extraByte := buffer[fileSize - 1];
      var extraBuffer := ReadToLineEnd(source, position + runBytesRead, extraByte);
      chunk := buffer[..runBytesRead] + extraBuffer;
      next := position + runBytesRead + |extraBuffer|;
      if |extraBuffer| > 0 {
        totalRows := totalRows + 1;
      }
      ChunkOfReads(source, position, fileSize, runBytesRead, extraByte, |extraBuffer|);
    }

    /** What `ReadChunk` read is the next chunk. */
    static lemma ChunkOfReads(source: seq<byte>, position: nat, C: nat, read: nat, last: byte, extra: nat)
      requires 0 < C && position < |source|
      requires read == Min(C, |source| - position)
      requires read == C ==> last == source[position + C - 1]
      requires position + read == |source| ==> extra == 0
      requires position + read < |source| ==>
                 extra == (if last == NewLineSign then 0 else ExtendEnd(source, position + read) - position - read)
      ensures position + read + extra == position + ChunkEnd(source[position..], C)
      ensures extra > 0 ==> read + extra > C
    {
      var rest := source[position..];
      ExtendEndShift(source, position, read);
    }

    /** The first loop of a `SplitFile` round: up to C bytes into the buffer, counting line ends. */
    static method FillBuffer(source: seq<byte>, position: nat, buffer: array<byte>)
      returns (runBytesRead: nat, totalRows: nat)
      requires position <= |source|
      modifies buffer
      ensures runBytesRead == Min(buffer.Length, |source| - position)
      ensures buffer[..runBytesRead] == source[position..position + runBytesRead]
      ensures totalRows == CountNewLines(source[position..position + runBytesRead])
    {
      var fileSize := buffer.Length;
      var next := position;
      totalRows := 0;
      runBytesRead := 0;
      while runBytesRead < fileSize
        invariant runBytesRead <= fileSize && next == position + runBytesRead <= |source|
        invariant buffer[..runBytesRead] == source[position..next]
        invariant totalRows == CountNewLines(source[position..next])
        decreases fileSize - runBytesRead
      {
        if next == |source| {
          break;  // ReadByte returned -1
        }
        var b := source[next];
        next := next + 1;
        buffer[runBytesRead] := b;
        runBytesRead := runBytesRead + 1;
        CountNewLinesAppend(source[position..next - 1], [b]);
        assert source[position..next] == source[position..next - 1] + [b];
        if b == NewLineSign {
          totalRows := totalRows + 1;
        }
      }
    }

    /**
     * The second loop of a `SplitFile` round: unless the last byte read is NewLineSign,
     * read on up to and including the next one, or to the end of the source.
     */
    static method ReadToLineEnd(source: seq<byte>, position: nat, lastByte: byte) returns (extraBuffer: seq<byte>)
      requires position <= |source|
      ensures position + |extraBuffer| <= |source|
      ensures extraBuffer == source[position..position + |extraBuffer|]
      ensures lastByte == NewLineSign || position == |source| ==> extraBuffer == []
      ensures lastByte != NewLineSign ==> position + |extraBuffer| == ExtendEnd(source, position)
    {
      var extraByte := lastByte;
      var next := position;
      extraBuffer := [];
      while extraByte != NewLineSign
        invariant position <= next <= |source| && extraBuffer == source[position..next]
        invariant next == position ==> extraByte == lastByte
        invariant lastByte == NewLineSign ==> next == position
        invariant extraByte == NewLineSign && lastByte != NewLineSign ==> next == ExtendEnd(source, position)
        invariant extraByte != NewLineSign ==> ExtendEnd(source, next) == ExtendEnd(source, position)
        decreases |source| - next
      {
        if next == |source| {
          break;  // ReadByte returned -1
        }
        extraByte := source[next];
        next := next + 1;
        extraBuffer := extraBuffer + [extraByte];
      }
    }

    /**
     * Reads the chunk's lines into the scratch array, sorts the whole array (null slots
     * first), writes the non-null rows in order and clears the array.
     */
    method SortFile(chunk: seq<byte>) returns (r: Result<seq<Record>>)
      requires forall k :: 0 <= k < unsortedRows.Length ==> unsortedRows[k] == None
      modifies unsortedRows
      ensures r.Ok? <==> Fits(chunk, unsortedRows.Length)
      ensures r.Ok? ==> r.value == SortedChunk(chunk)
      ensures r.Ok? ==> forall k :: 0 <= k < unsortedRows.Length ==> unsortedRows[k] == None
      ensures r == Err(ScratchOverflow) ==>
                unsortedRows.Length < |LinesOf(chunk)| &&
                ParseAll(LinesOf(chunk)[..unsortedRows.Length + 1]).Ok?
      ensures r.Err? && r.error != ScratchOverflow ==>
                exists k :: 0 <= k <= unsortedRows.Length && k < |LinesOf(chunk)| &&
                            FromString(Decode(LinesOf(chunk)[k])) == Err(r.error)
    {
      var read := ReadRows(LinesOf(chunk));
      if read.Err? {
        r := Err(read.error);
        return;
      }
      ghost var filled := unsortedRows[..];
      PresentFilled(filled, read.value);
      SortRows();
      var output := WrittenRows();
      SortedRows(filled, output, read.value);
      ClearRows();
      r := Ok(output);
    }

    /** Writing the non-null slots of the sorted array gives the sorted records. */
    static lemma SortedRows(filled: seq<Option<Record>>, output: seq<Record>, parsed: seq<Record>)
      requires Present(filled) == parsed
      requires output == Present(SortBy(filled, SlotKey))
      ensures output == SortRecords(parsed)
    {
      SortBySorted(filled, SlotKey);
      SortByFlatMap(filled, SlotKey, PresentOne);
      PresentOfSorted(SortBy(filled, SlotKey));
      SortedPermutationIsSortRecords(parsed, output);
    }

    /**
     * The read loop of `SortFile`: each line parsed (`FromString`) and stored in the next
     * slot. A line that does not parse fails before its slot is checked.
     */
    method ReadRows(lines: seq<seq<byte>>) returns (r: Result<seq<Record>>)
      requires forall k :: 0 <= k < unsortedRows.Length ==> unsortedRows[k] == None
      modifies unsortedRows
      ensures r.Ok? <==> |lines| <= unsortedRows.Length && ParseAll(lines).Ok?
      ensures r.Ok? ==> r.value == ParseAll(lines).value
      ensures r.Ok? ==> forall k :: 0 <= k < |r.value| ==> unsortedRows[k] == Some(r.value[k])
      ensures r.Ok? ==> forall k :: |r.value| <= k < unsortedRows.Length ==> unsortedRows[k] == None
      ensures r == Err(ScratchOverflow) ==>
                unsortedRows.Length < |lines| && ParseAll(lines[..unsortedRows.Length + 1]).Ok?
      ensures r.Err? && r.error != ScratchOverflow ==>
                exists k :: 0 <= k <= unsortedRows.Length && k < |lines| &&
                            FromString(Decode(lines[k])) == Err(r.error)
    {
      var parsed: seq<Record> := [];
      var counter := 0;
      var slots := unsortedRows;
      while counter < |lines|
        invariant counter <= |lines| && counter <= slots.Length
        invariant ParseAll(lines[..counter]) == Ok(parsed)
        invariant forall k :: 0 <= k < counter ==> slots[k] == Some(parsed[k])
        invariant forall k :: counter <= k < slots.Length ==> slots[k] == None
        modifies slots
      {
        var row := FromString(Decode(lines[counter]));
        if row.Err? {
          ParseAllStops(lines, counter);
          r := Err(row.error);
          return;
        }
        TakeSnoc(lines, counter);
        ParseAllSnoc(lines[..counter], lines[counter], parsed, row.value);
        if counter >= slots.Length {
          r := Err(ScratchOverflow);
          return;
        }
        slots[counter] := Some(row.value);
        parsed := parsed + [row.value];
        counter := counter + 1;
      }
      assert lines[..counter] == lines;
      r := Ok(parsed);
    }

    /**
     * `Array.Sort` with the record comparer over the whole array: nulls first, then the
     * records in order. The comparer is a total order, so the result is the one sorted
     * arrangement of the slots.
     */
    method SortRows()
      modifies unsortedRows
      ensures unsortedRows[..] == SortBy(old(unsortedRows[..]), SlotKey)
    {
      var sorted := SortBy(unsortedRows[..], SlotKey);
      forall k | 0 <= k < unsortedRows.Length {
        unsortedRows[k] := sorted[k];
      }
    }

    /** The write loop of `SortFile`: the non-null slots, in order (`Where(x => x != null)`). */
    method WrittenRows() returns (output: seq<Record>)
      ensures output == Present(unsortedRows[..])
      ensures |output| <= unsortedRows.Length
    {
      output := [];
      var i := 0;
      while i < unsortedRows.Length
        invariant i <= unsortedRows.Length && output == Present(unsortedRows[..i])
        invariant |output| <= i
      {
        PresentSnoc(unsortedRows[..], i);
        assert unsortedRows[..][..i + 1] == unsortedRows[..i + 1];
        if unsortedRows[i].Some? {
          output := output + [unsortedRows[i].value];
        }
        i := i + 1;
      }
      assert unsortedRows[..i] == unsortedRows[..];
    }

    /** `Array.Clear`: every slot null again. */
    method ClearRows()
      modifies unsortedRows
      ensures forall k :: 0 <= k < unsortedRows.Length ==> unsortedRows[k] == None
    {
      forall k | 0 <= k < unsortedRows.Length {
        unsortedRows[k] := None;
      }
    }

    /**
     * Opens a reader on each of the run files in order and reads its first line into the
     * frontier, tagged with the reader's index. A missing file fails to open; an empty one
     * gives no first line.
     */
    method InitializeStreamReaders(files: seq<nat>) returns (r: Result<(seq<Reader>, seq<Row>)>)
      ensures r.Ok? <==> Readable(sortedFiles, files)
      ensures r.Ok? ==> r.value.0 == Opened(Runs(sortedFiles, files))
      ensures r.Ok? ==> r.value.1 == Primed(Runs(sortedFiles, files))
      ensures r.Err? ==> r.error == MissingFile || r.error == EmptyRun
    {
      var streamReaders: seq<Reader> := [];
      var rows: seq<Row> := [];
      for i := 0 to |files|
        invariant forall k :: 0 <= k < i ==> files[k] in sortedFiles && sortedFiles[files[k]] != []
        invariant |streamReaders| == i && |rows| == i
        invariant forall k :: 0 <= k < i ==> streamReaders[k] == Reader(sortedFiles[files[k]], 1)
        invariant forall k :: 0 <= k < i ==> rows[k] == Row(sortedFiles[files[k]][0], k)
      {
        if files[i] !in sortedFiles {  // File.OpenRead
          r := Err(MissingFile);
          return;
        }
        var run := sortedFiles[files[i]];
        if run == [] {  // ReadLineAsync gives null
          r := Err(EmptyRun);
          return;
        }
        streamReaders := streamReaders + [Reader(run, 1)];
        rows := rows + [Row(run[0], i)];
      }
      r := Ok((streamReaders, rows));
    }

    /** Removes each merged run file in turn; moving a file that is already gone fails. */
    method CleanupRun(files: seq<nat>) returns (r: Result<()>)
      modifies this
      ensures r.Ok? <==> (forall i :: 0 <= i < |files| ==> files[i] in old(sortedFiles)) && Distinct(files)
      ensures r.Err? ==> r.error == MissingFile
      ensures r.Ok? ==> sortedFiles == Deleted(old(sortedFiles), files)
      ensures unsortedRows == old(unsortedRows) && unsortedFiles == old(unsortedFiles)
      ensures destination == old(destination)
    {
      var directory := sortedFiles;
      for i := 0 to |files|
        invariant Cleaning(old(sortedFiles), files, i, directory)
        modifies {}
      {
        if files[i] !in directory {  // File.Move
          CleanMissing(old(sortedFiles), files, i, directory);
          r := Err(MissingFile);
          return;
        }
        CleanNext(old(sortedFiles), files, i, directory);
        directory := directory - {files[i]};  // File.Delete
      }
      CleanDone(old(sortedFiles), files, directory);
      sortedFiles := directory;
      r := Ok(());
    }

    /** The invariant of `CleanupRun`'s loop: the first i files existed, once each, and are gone. */
    static ghost predicate Cleaning(dir: map<nat, seq<Record>>, files: seq<nat>, i: nat,
                                    directory: map<nat, seq<Record>>)
    {
      && i <= |files|
      && (forall k :: 0 <= k < i ==> files[k] in dir)
      && Distinct(files[..i])
      && directory == Deleted(dir, files[..i])
    }

    static lemma CleanMissing(dir: map<nat, seq<Record>>, files: seq<nat>, i: nat,
                              directory: map<nat, seq<Record>>)
      requires Cleaning(dir, files, i, directory) && i < |files| && files[i] !in directory
      ensures !((forall k :: 0 <= k < |files| ==> files[k] in dir) && Distinct(files))
    {
      DeletedFiles(dir, files[..i]);
      if files[i] in dir {
        var k :| 0 <= k < i && files[k] == files[i];
        assert !Distinct(files);
      }
    }

    static lemma CleanNext(dir: map<nat, seq<Record>>, files: seq<nat>, i: nat,
                           directory: map<nat, seq<Record>>)
      requires Cleaning(dir, files, i, directory) && i < |files| && files[i] in directory
      ensures Cleaning(dir, files, i + 1, directory - {files[i]})
    {
      DeletedFiles(dir, files[..i]);
      TakeSnoc(files, i);
      DeleteNext(dir, files, i);
    }

    static lemma CleanDone(dir: map<nat, seq<Record>>, files: seq<nat>, directory: map<nat, seq<Record>>)
      requires Cleaning(dir, files, |files|, directory)
      ensures (forall k :: 0 <= k < |files| ==> files[k] in dir) && Distinct(files)
      ensures directory == Deleted(dir, files)
    {
      assert files[..|files|] == files;
    }

    /**
     * Merges the run files into one ordered sequence of records (what `Merge` writes to its
     * output stream) and removes them.
     */
    method Merge(files: seq<nat>) returns (r: Result<seq<Record>>)
      modifies this
      ensures r.Ok? <==> files != [] && Readable(old(sortedFiles), files) && Distinct(files)
      ensures files == [] ==> r == Err(EmptyFrontier)
      ensures r.Ok? ==> multiset(r.value) == FilesBag(old(sortedFiles), files)
      ensures r.Ok? && RunFilesSorted(old(sortedFiles)) ==> Sorted(r.value)
      ensures r.Ok? ==> sortedFiles == Deleted(old(sortedFiles), files)
      ensures unsortedRows == old(unsortedRows) && unsortedFiles == old(unsortedFiles)
      ensures destination == old(destination)
    {
      var init := InitializeStreamReaders(files);
      if init.Err? {
        r := Err(init.error);
        return;
      }
      var (streamReaders, rows) := init.value;
      ghost var runs := Runs(sortedFiles, files);
      InitEstablishes(runs);
      RunsBag(sortedFiles, files);
      if RunFilesSorted(sortedFiles) {
        OpenedSorted(sortedFiles, files);
      }
      var merged := MergeReaders(streamReaders, rows);
      if merged.Err? {
        r := Err(merged.error);
        return;
      }
      var cleaned := CleanupRun(files);
      if cleaned.Err? {
        r := Err(cleaned.error);
        return;
      }
      r := Ok(merged.value);
    }

    /**
     * Sorts each chunk file into the run file with the same number and deletes the chunk
     * file, returning the run files' numbers.
     */
    method SortFiles(files: seq<nat>) returns (r: Result<seq<nat>>)
      requires forall k :: 0 <= k < unsortedRows.Length ==> unsortedRows[k] == None
      modifies this, unsortedRows
      ensures r.Ok? <==> Distinct(files) && AllFit(old(unsortedFiles), files, unsortedRows.Length)
      ensures r.Ok? ==> r.value == files
      ensures r.Ok? ==> sortedFiles == old(sortedFiles) + SortedChunks(old(unsortedFiles), files)
      ensures r.Ok? ==> unsortedFiles == Deleted(old(unsortedFiles), files)
      ensures r.Ok? ==> forall k :: 0 <= k < unsortedRows.Length ==> unsortedRows[k] == None
      ensures unsortedRows == old(unsortedRows) && destination == old(destination)
    {
      var sortedNames: seq<nat> := [];
      var pending, runs := unsortedFiles, sortedFiles;
      ghost var capacity := unsortedRows.Length;
      for i := 0 to |files|
        invariant Distinct(files[..i])
        invariant AllFit(old(unsortedFiles), files[..i], capacity)
        invariant pending == Deleted(old(unsortedFiles), files[..i])
        invariant runs == old(sortedFiles) + SortedChunks(old(unsortedFiles), files[..i])
        invariant sortedNames == files[..i]
        invariant forall k :: 0 <= k < unsortedRows.Length ==> unsortedRows[k] == None
        modifies unsortedRows
      {
        PendingNext(old(unsortedFiles), files, i);
        var step := SortOneFile(pending, runs, files[i]);
        if step.Err? {
          SortFilesFails(old(unsortedFiles), files, i, capacity);
          r := Err(step.error);
          return;
        }
        SortFilesNext(old(unsortedFiles), old(sortedFiles), files, i, capacity);
        pending, runs := step.value.0, step.value.1;
        sortedNames := sortedNames + [files[i]];
      }
      assert files[..|files|] == files;
      unsortedFiles, sortedFiles := pending, runs;
      r := Ok(sortedNames);
    }

    /**
     * One round of `SortFiles`: sorts the chunk file `name` into the run file with the same
     * number and deletes the chunk file. The directory is passed as the two maps.
     */
    method SortOneFile(unsorted: map<nat, seq<byte>>, sorted: map<nat, seq<Record>>, name: nat)
      returns (r: Result<(map<nat, seq<byte>>, map<nat, seq<Record>>)>)
      requires forall k :: 0 <= k < unsortedRows.Length ==> unsortedRows[k] == None
      modifies unsortedRows
      ensures r.Ok? <==> name in unsorted && Fits(unsorted[name], unsortedRows.Length)
      ensures r.Ok? ==> r.value.0 == unsorted - {name}
      ensures r.Ok? ==> r.value.1 == sorted[name := SortedChunk(unsorted[name])]
      ensures r.Ok? ==> forall k :: 0 <= k < unsortedRows.Length ==> unsortedRows[k] == None
    {
      if name !in unsorted {  // File.OpenRead
        r := Err(MissingFile);
        return;
      }
      var run := SortFile(unsorted[name]);
      if run.Err? {
        r := Err(run.error);
        return;
      }
      r := Ok((unsorted - {name}, sorted[name := run.value]));  // File.Delete
    }

    /**
     * Merges the run files 1..n into the destination: while there are more than
     * `FilesMergeChunkSize` of them a pass merges them in batches and the run files are
     * listed again; the final run merges what is left into the destination.
     */
    method MergeFiles(files: seq<nat>) returns (r: Result<()>)
      requires mergeWidth >= 2
      requires files == Range(1, |files| + 1)
      requires forall k :: k in sortedFiles <==> 1 <= k <= |files|
      modifies this
      ensures r.Ok? <==> files != [] && NonEmptyRuns(old(sortedFiles))
      ensures files == [] ==> r == Err(EmptyFrontier)
      ensures r.Ok? ==> multiset(destination) == FilesBag(old(sortedFiles), files)
      ensures r.Ok? && RunFilesSorted(old(sortedFiles)) ==> Sorted(destination)
      ensures r.Ok? ==> sortedFiles == map[]
      ensures unsortedRows == old(unsortedRows) && unsortedFiles == old(unsortedFiles)
    {
      var current := files;
      var mergeDone := false;
      RenumberedStart(sortedFiles, |files|);
      while !mergeDone
        invariant !mergeDone
        invariant current == Range(1, |current| + 1)
        invariant current == [] <==> files == []
        invariant Renumbered(old(sortedFiles), sortedFiles, |files|, |current|)
        invariant unsortedRows == old(unsortedRows) && unsortedFiles == old(unsortedFiles)
        decreases |current|
      {
        var finalRun := |current| <= mergeWidth;
        if finalRun {
          r := FinalRun(current, old(sortedFiles), files);
          return;
        }
        ghost var passStart := sortedFiles;
        var pass := MergePass(current);
        if pass.Err? {
          r := Err(pass.error);
          return;
        }
        RenumberedTwice(old(sortedFiles), passStart, sortedFiles, |files|, |current|, |pass.value|);
        current := pass.value;
        if |current| > 1 {
          continue;
        }
        // a pass always leaves at least two run files, so this exit is never taken
        assert false;
        mergeDone := true;
      }
      // the loop is only left through a return
      r := Ok(());
    }

    /** The last merge of `MergeFiles`, straight into the destination. */
    method FinalRun(current: seq<nat>, ghost original: map<nat, seq<Record>>, ghost files: seq<nat>)
      returns (r: Result<()>)
      requires current == Range(1, |current| + 1) && (current == [] <==> files == [])
      requires files == Range(1, |files| + 1)
      requires Renumbered(original, sortedFiles, |files|, |current|)
      modifies this
      ensures r.Ok? <==> files != [] && NonEmptyRuns(original)
      ensures files == [] ==> r == Err(EmptyFrontier)
      ensures r.Ok? ==> multiset(destination) == FilesBag(original, files)
      ensures r.Ok? && RunFilesSorted(original) ==> Sorted(destination)
      ensures r.Ok? ==> sortedFiles == map[]
      ensures unsortedRows == old(unsortedRows) && unsortedFiles == old(unsortedFiles)
    {
      ReadableRange(sortedFiles, |current|);
      RangeDistinct(1, |current| + 1);
      DeletedAll(sortedFiles, |current|);
      var merged := Merge(current);
      if merged.Err? {
        r := Err(merged.error);
        return;
      }
      destination := merged.value;
      r := Ok(());
    }

    /**
     * One pass of `MergeFiles` over the run files 1..n: the files are cut into batches of
     * `FilesMergeChunkSize`, and batch j (counting from 1) is merged into run file j, or
     * moved there when it is a single file. Afterwards the run files are exactly 1..m, one
     * per batch, holding the same records as before, and listing them gives 1..m.
     */
    method MergePass(current: seq<nat>) returns (r: Result<seq<nat>>)
      requires mergeWidth >= 2 && |current| > mergeWidth
      requires current == Range(1, |current| + 1)
      requires forall k :: k in sortedFiles <==> 1 <= k <= |current|
      modifies this
      ensures NonEmptyRuns(old(sortedFiles)) ==> r.Ok?
      ensures r.Ok? ==> r.value == Range(1, |r.value| + 1) && 2 <= |r.value| < |current|
      ensures r.Ok? ==> |r.value| == |Batches(current, mergeWidth)|
      ensures r.Ok? ==> Renumbered(old(sortedFiles), sortedFiles, |current|, |r.value|)
      ensures unsortedRows == old(unsortedRows) && unsortedFiles == old(unsortedFiles)
      ensures destination == old(destination)
    {
      var runs := Batches(current, mergeWidth);
      ghost var before := sortedFiles;
      BatchCount(current, mergeWidth);
      PassStart(before, |current|);
      var merged := MergeBatches(current, runs, before);
      if merged.Err? {
        r := Err(merged.error);
        return;
      }
      BatchRange(current, mergeWidth, runs, 0, 0);
      PassEnd(before, sortedFiles, |current|, |runs|);
      var listed := ListSortedFiles();
      AscendingRange(listed, |runs|);
      r := Ok(listed);
    }

    /** The loop of one pass: every batch in turn becomes the next run file. */
    method MergeBatches(current: seq<nat>, runs: seq<seq<nat>>, ghost before: map<nat, seq<Record>>)
      returns (r: Result<()>)
      requires mergeWidth >= 2 && current == Range(1, |current| + 1)
      requires runs == Batches(current, mergeWidth) && 2 <= |runs|
      requires PassState(before, sortedFiles, |current|, 0, 0)
      modifies this
      ensures r.Ok? ==> PassState(before, sortedFiles, |current|, |runs|, Taken(runs, |runs|))
      ensures r.Err? ==> !NonEmptyRuns(before)
      ensures unsortedRows == old(unsortedRows) && unsortedFiles == old(unsortedFiles)
      ensures destination == old(destination)
    {
      var chunkCounter := 0;
      TakenNone(runs);
      while chunkCounter < |runs|
        invariant chunkCounter <= |runs|
        invariant chunkCounter < |runs| ==> Taken(runs, chunkCounter) >= 2 * chunkCounter
        invariant PassState(before, sortedFiles, |current|, chunkCounter, Taken(runs, chunkCounter))
        invariant unsortedRows == old(unsortedRows) && unsortedFiles == old(unsortedFiles)
        invariant destination == old(destination)
      {
        BatchAtRun(current, mergeWidth, runs, chunkCounter);
        var step := MergeRun(runs, chunkCounter, |current|, before,
                             Taken(runs, chunkCounter), Taken(runs, chunkCounter + 1));
        if step.Err? {
          r := Err(step.error);
          return;
        }
        chunkCounter := chunkCounter + 1;
      }
      r := Ok(());
    }

    /** The body of the pass loop for batch j (counting from 0), which becomes run file j + 1. */
    method MergeRun(runs: seq<seq<nat>>, j: nat, ghost n: nat, ghost before: map<nat, seq<Record>>,
                    ghost consumed: nat, ghost last: nat)
      returns (r: Result<()>)
      requires j < |runs| && BatchAt(runs, j, n)
      requires consumed == Taken(runs, j) && last == Taken(runs, j + 1)
      requires PassState(before, sortedFiles, n, j, consumed)
      modifies this
      ensures r.Ok? ==> PassState(before, sortedFiles, n, j + 1, last)
      ensures r.Err? ==> !NonEmptyRuns(before)
      ensures unsortedRows == old(unsortedRows) && unsortedFiles == old(unsortedFiles)
      ensures destination == old(destination)
    {
      var files := runs[j];
      assert files == Range(consumed + 1, last + 1) && consumed < last <= n;
      if |files| == 1 {
        assert j < consumed && files[0] == consumed + 1 == last;
        MoveRun(files[0], j, before, n, consumed, last);
        r := Ok(());
      } else {
        r := MergeBatch(files, j, before, n, consumed, last);
      }
    }

    /** A batch of one run file is renamed to run file j + 1 (`File.Move` without overwriting). */
    method MoveRun(file: nat, j: nat, ghost before: map<nat, seq<Record>>, ghost n: nat, ghost consumed: nat,
                   ghost last: nat)
      requires PassState(before, sortedFiles, n, j, consumed) && j < consumed
      requires file == consumed + 1 == last <= n
      modifies this
      ensures file in old(sortedFiles) && j + 1 !in old(sortedFiles)
      ensures forall k :: k in sortedFiles <==> k == j + 1 || (k in old(sortedFiles) && k != file)
      ensures sortedFiles[j + 1] == old(sortedFiles)[file]
      ensures forall k :: k in sortedFiles && k != j + 1 ==> sortedFiles[k] == old(sortedFiles)[k]
      ensures PassState(before, sortedFiles, n, j + 1, last)
      ensures unsortedRows == old(unsortedRows) && unsortedFiles == old(unsortedFiles)
      ensures destination == old(destination)
    {
      PassMoved(before, sortedFiles, n, j, consumed);
      sortedFiles := (sortedFiles - {file})[j + 1 := sortedFiles[file]];
    }

    /**
     * A batch of several run files is merged into run file j + 1: the output is written to
     * a temporary file, the batch is deleted and the output renamed over run file j + 1.
     */
    method MergeBatch(files: seq<nat>, j: nat, ghost before: map<nat, seq<Record>>, ghost n: nat,
                      ghost consumed: nat, ghost last: nat)
      returns (r: Result<()>)
      requires PassState(before, sortedFiles, n, j, consumed)
      requires consumed < last <= n && files == Range(consumed + 1, last + 1)
      modifies this
      ensures r.Ok? ==> PassState(before, sortedFiles, n, j + 1, last)
      ensures r.Err? ==> !NonEmptyRuns(before)
      ensures unsortedRows == old(unsortedRows) && unsortedFiles == old(unsortedFiles)
      ensures destination == old(destination)
    {
      ghost var dir := sortedFiles;
      RangeDistinct(consumed + 1, last + 1);
      if RunFilesSorted(before) {
        PassAllSorted(before, dir, n, j, consumed);
      }
      var merged := Merge(files);
      if merged.Err? {
        MergeFailed(before, dir, n, j, consumed, last, files);
        r := Err(merged.error);
        return;
      }
      ReadableBatch(dir, consumed, last, files);
      PassMerged(before, dir, n, j, consumed, last, merged.value);
      sortedFiles := sortedFiles[j + 1 := merged.value];
      r := Ok(());
    }

    static lemma ReadableBatch(dir: map<nat, seq<Record>>, consumed: nat, last: nat, files: seq<nat>)
      requires consumed <= last && files == Range(consumed + 1, last + 1) && Readable(dir, files)
      ensures forall k :: consumed < k <= last ==> k in dir && dir[k] != []
    {
      forall k | consumed < k <= last ensures k in dir && dir[k] != [] {
        assert files[k - consumed - 1] == k;
      }
    }

    /** A batch `Merge` refuses holds an empty run, so the pass started from one. */
    static lemma MergeFailed(before: map<nat, seq<Record>>, dir: map<nat, seq<Record>>, n: nat, j: nat,
                             consumed: nat, last: nat, files: seq<nat>)
      requires PassState(before, dir, n, j, consumed) && consumed < last <= n
      requires files == Range(consumed + 1, last + 1)
      requires !Readable(dir, files)
      ensures !NonEmptyRuns(before)
    {
      var i :| 0 <= i < |files| && !(files[i] in dir && dir[files[i]] != []);
      assert files[i] == consumed + 1 + i;
    }

    /** `Directory.GetFiles` on the run files, ordered by their numbers. */
    method ListSortedFiles() returns (listed: seq<nat>)
      ensures Ascending(listed)
      ensures forall k :: k in listed <==> k in sortedFiles
    {
      listed := AscendingKeys(sortedFiles.Keys);
    }
  }
}
