/**
 * The pass structure of `MergeFiles`: the run files are cut into batches of
 * `FilesMergeChunkSize`, each batch becomes one file numbered by its position, and the
 * records held by a set of numbered run files.
 */
module Passes {
  import opened Seqs
  import opened Records
  import opened Sorting

  /** `Enumerable.Chunk`: consecutive batches of k elements, the last one possibly shorter. */
  function Batches<T>(s: seq<T>, k: nat): (r: seq<seq<T>>)
    requires k > 0
    ensures Flatten(r) == s
    ensures forall i :: 0 <= i < |r| ==> 1 <= |r[i]| <= k
    ensures forall i :: 0 <= i < |r| - 1 ==> |r[i]| == k
    ensures |s| <= k ==> |r| == (if s == [] then 0 else 1)
    decreases |s|
  {
    if |s| <= k then
      (if s == [] then [] else assert Flatten([s]) == s + Flatten([s][1..]); [s])
    else
      var rest := Batches(s[k..], k);
      var r := [s[..k]] + rest;
      assert r[1..] == rest;
      assert s == s[..k] + s[k..];
      r
  }

  /**
   * When there are more files than fit in one batch (and a batch holds at least two),
   * a pass leaves at least two files and fewer than it started with.
   */
  lemma {:induction false} BatchCount<T>(s: seq<T>, k: nat)
    requires k >= 2 && |s| > k
    ensures 2 <= |Batches(s, k)| < |s|
    decreases |s|
  {
    var rest := s[k..];
    assert Batches(s, k) == [s[..k]] + Batches(rest, k);
    if |rest| > k {
      BatchCount(rest, k);
    } else {
      assert |Batches(rest, k)| == 1;
    }
  }

  lemma {:induction false} FlattenConcat<T>(a: seq<seq<T>>, b: seq<seq<T>>)
    ensures Flatten(a + b) == Flatten(a) + Flatten(b)
  {
    if a == [] {
      assert a + b == b;
    } else {
      assert (a + b)[1..] == a[1..] + b;
      FlattenConcat(a[1..], b);
    }
  }

  /** Batch j sits in the sequence right after the elements of the batches before it. */
  lemma BatchPosition<T>(ss: seq<seq<T>>, j: nat)
    requires j < |ss|
    ensures var c := |Flatten(ss[..j])|;
            c + |ss[j]| <= |Flatten(ss)| && Flatten(ss)[c..c + |ss[j]|] == ss[j]
  {
    assert ss == ss[..j] + ([ss[j]] + ss[j + 1..]);
    FlattenConcat(ss[..j], [ss[j]] + ss[j + 1..]);
    FlattenConcat([ss[j]], ss[j + 1..]);
    assert Flatten([ss[j]]) == ss[j] + Flatten([ss[j]][1..]);
  }

  /** The batches up to and including batch j. */
  lemma BatchesUpTo<T>(ss: seq<seq<T>>, j: nat)
    requires j < |ss|
    ensures Flatten(ss[..j + 1]) == Flatten(ss[..j]) + ss[j]
  {
    assert ss[..j + 1] == ss[..j] + [ss[j]];
    FlattenAppend(ss[..j], ss[j]);
  }

  /** How many elements the first j batches hold. */
  function Taken<T>(runs: seq<seq<T>>, j: nat): nat
    requires j <= |runs|
  {
    |Flatten(runs[..j])|
  }

  /**
   * Over the file numbers 1..n, batch j holds the numbers right after those of the batches
   * before it; every batch but the last is full, and all the batches hold all n numbers.
   */
  lemma BatchRange(current: seq<nat>, k: nat, runs: seq<seq<nat>>, j: nat, c: nat)
    requires k > 0 && current == Range(1, |current| + 1) && runs == Batches(current, k) && j < |runs|
    requires c == Taken(runs, j)
    ensures runs[j] != [] && Taken(runs, j + 1) == c + |runs[j]| <= |current|
    ensures runs[j] == Range(c + 1, Taken(runs, j + 1) + 1)
    ensures j < |runs| - 1 ==> |runs[j]| == k
    ensures Taken(runs, |runs|) == |current|
  {
    BatchTaken(current, k, runs, j);
    BatchSlice(current, runs, j, c);
  }

  /**
   * Batch j holds the file numbers right after those taken before it, within 1..n; a batch
   * of one file comes after more files than batches.
   */
  ghost predicate BatchAt(runs: seq<seq<nat>>, j: nat, n: nat)
    requires j < |runs|
  {
    && Taken(runs, j) < Taken(runs, j + 1) <= n
    && runs[j] == Range(Taken(runs, j) + 1, Taken(runs, j + 1) + 1)
    && |runs[j]| == Taken(runs, j + 1) - Taken(runs, j)
    && (|runs[j]| == 1 ==> j < Taken(runs, j) && runs[j][0] == Taken(runs, j) + 1)
  }

  lemma TakenNone<T>(runs: seq<seq<T>>)
    ensures Taken(runs, 0) == 0
  {
    assert runs[..0] == [];
  }

  lemma BatchAtRun(current: seq<nat>, k: nat, runs: seq<seq<nat>>, j: nat)
    requires k >= 2 && current == Range(1, |current| + 1) && runs == Batches(current, k)
    requires 2 <= |runs| && j < |runs| && Taken(runs, j) >= 2 * j
    ensures BatchAt(runs, j, |current|)
    ensures j + 1 < |runs| ==> Taken(runs, j + 1) >= 2 * (j + 1)
  {
    BatchRange(current, k, runs, j, Taken(runs, j));
  }

  lemma BatchTaken<T>(current: seq<T>, k: nat, runs: seq<seq<T>>, j: nat)
    requires k > 0 && runs == Batches(current, k) && j < |runs|
    ensures runs[j] != [] && Taken(runs, j + 1) == Taken(runs, j) + |runs[j]| <= |current|
    ensures Taken(runs, |runs|) == |current|
  {
    BatchPosition(runs, j);
    BatchesUpTo(runs, j);
    TakenAll(runs);
  }

  lemma BatchSlice(current: seq<nat>, runs: seq<seq<nat>>, j: nat, c: nat)
    requires current == Range(1, |current| + 1) && Flatten(runs) == current && j < |runs|
    requires c == Taken(runs, j)
    ensures runs[j] == Range(c + 1, c + |runs[j]| + 1)
  {
    var len := |runs[j]|;
    BatchPosition(runs, j);
    assert current[c..c + len] == runs[j];
    RangeSlice(1, |current| + 1, c, c + len);
  }

  lemma TakenAll<T>(runs: seq<seq<T>>)
    ensures Taken(runs, |runs|) == |Flatten(runs)|
  {
    assert runs[..|runs|] == runs;
  }

  // ---------------------------------------------------------------- numbered run files

  /** The records held by the run files numbered `keys` (a missing file holds none). */
  ghost function FilesBag(files: map<nat, seq<Record>>, keys: seq<nat>): multiset<Record>
  {
    if keys == [] then multiset{}
    else (if keys[0] in files then multiset(files[keys[0]]) else multiset{}) + FilesBag(files, keys[1..])
  }

  lemma {:induction false} FilesBagAppend(files: map<nat, seq<Record>>, a: seq<nat>, b: seq<nat>)
    ensures FilesBag(files, a + b) == FilesBag(files, a) + FilesBag(files, b)
  {
    if a == [] {
      assert a + b == b;
    } else {
      assert (a + b)[1..] == a[1..] + b;
      FilesBagAppend(files, a[1..], b);
    }
  }

  /** Only the files named matter. */
  lemma {:induction false} FilesBagAgree(f: map<nat, seq<Record>>, g: map<nat, seq<Record>>, keys: seq<nat>)
    requires forall k :: k in keys ==> (k in f <==> k in g) && (k in f ==> f[k] == g[k])
    ensures FilesBag(f, keys) == FilesBag(g, keys)
  {
    if keys != [] {
      FilesBagAgree(f, g, keys[1..]);
    }
  }

  /** Strictly ascending file numbers, as `OrderBy(int.Parse)` lists them. */
  predicate Ascending(s: seq<nat>)
  {
    forall i, j :: 0 <= i < j < |s| ==> s[i] < s[j]
  }

  lemma AscendingEndsAtMax(s: seq<nat>, m: nat)
    requires Ascending(s) && m > 0
    requires forall k :: k in s <==> 1 <= k <= m
    ensures s != [] && s[|s| - 1] == m
  {
    assert m in s;
    var last :| 0 <= last < |s| && s[last] == m;
    assert s[|s| - 1] in s;
    assert s[last] <= s[|s| - 1];
  }

  lemma AscendingInit(s: seq<nat>, init: seq<nat>, m: nat)
    requires Ascending(s) && s != [] && s[|s| - 1] == m && init == s[..|s| - 1]
    requires forall k :: k in s <==> 1 <= k <= m
    ensures Ascending(init)
    ensures forall k :: k in init <==> 1 <= k <= m - 1
  {
    forall k | k in init ensures 1 <= k <= m - 1 {
      var i :| 0 <= i < |init| && init[i] == k;
      assert s[i] < s[|s| - 1];
      assert k in s;
    }
    forall k | 1 <= k <= m - 1 ensures k in init {
      assert k in s;
      var i :| 0 <= i < |s| && s[i] == k;
      assert i < |s| - 1 && init[i] == k;
    }
  }

  /** Listing the files numbered 1..m in ascending order gives exactly 1, 2, ..., m. */
  lemma {:induction false} AscendingRange(s: seq<nat>, m: nat)
    requires Ascending(s)
    requires forall k :: k in s <==> 1 <= k <= m
    ensures s == Range(1, m + 1)
    decreases m
  {
    if s == [] {
      assert m in s <==> 1 <= m;
    } else {
      assert s[0] in s;
      AscendingEndsAtMax(s, m);
      var init := s[..|s| - 1];
      AscendingInit(s, init, m);
      assert s == init + [m];
      AscendingRange(init, m - 1);
      RangeSnoc(1, m);
    }
  }

  /** A non-empty set of file numbers has a least element (descent from any member). */
  lemma {:induction false} HasLeast(s: set<nat>, x: nat)
    requires x in s
    ensures exists m :: m in s && forall k :: k in s ==> m <= k
    decreases x
  {
    if exists y :: y in s && y < x {
      var y :| y in s && y < x;
      HasLeast(s, y);
    }
  }

  lemma AscendingSnoc(s: seq<nat>, x: nat)
    requires Ascending(s) && forall k :: k in s ==> k < x
    ensures Ascending(s + [x])
  {
    var t := s + [x];
    forall i, j | 0 <= i < j < |t| ensures t[i] < t[j] {
      if j == |s| {
        assert t[i] in s;
      }
    }
  }

  /** The directory after the files `keys` are deleted one after another. */
  function Deleted<V>(files: map<nat, V>, keys: seq<nat>): map<nat, V>
  {
    if keys == [] then files else Deleted(files, keys[..|keys| - 1]) - {keys[|keys| - 1]}
  }

  /** Deleting removes exactly the files named and leaves the others as they were. */
  lemma {:induction false} DeletedFiles<V>(files: map<nat, V>, keys: seq<nat>)
    ensures forall k :: k in Deleted(files, keys) <==> k in files && k !in keys
    ensures forall k :: k in Deleted(files, keys) ==> Deleted(files, keys)[k] == files[k]
  {
    if keys != [] {
      var init := keys[..|keys| - 1];
      DeletedFiles(files, init);
      assert keys == init + [keys[|keys| - 1]];
    }
  }

  lemma DeleteNext<V>(files: map<nat, V>, keys: seq<nat>, i: nat)
    requires i < |keys|
    ensures Deleted(files, keys[..i + 1]) == Deleted(files, keys[..i]) - {keys[i]}
  {
    assert keys[..i + 1][..i] == keys[..i];
  }

  // ---------------------------------------------------------------- one pass

  /** Every run file holds its records in comparer order. */
  predicate RunFilesSorted(files: map<nat, seq<Record>>)
  {
    forall k :: k in files ==> Sorted(files[k])
  }

  /** Every run file has at least one line. */
  predicate NonEmptyRuns(files: map<nat, seq<Record>>)
  {
    forall k :: k in files ==> files[k] != []
  }

  lemma RangeSplit(a: nat, b: nat, c: nat)
    requires a <= b <= c
    ensures Range(a, b) + Range(b, c) == Range(a, c)
  {
    assert |Range(a, b) + Range(b, c)| == |Range(a, c)|;
  }

  lemma FilesBagOne(files: map<nat, seq<Record>>, k: nat)
    requires k in files
    ensures FilesBag(files, [k]) == multiset(files[k])
  {
    assert [k][1..] == [];
  }

  /**
   * Part-way through a pass over the run files 1..n of `before`: the batches done so far
   * are the files 1..j and hold the records of the files 1..consumed; the files after
   * `consumed` are untouched. A run written by the pass is ordered when the runs it read
   * were, and the new files have lines exactly when the files they replace had.
   */
  ghost predicate PassState(before: map<nat, seq<Record>>, dir: map<nat, seq<Record>>, n: nat, j: nat, consumed: nat)
  {
    && j <= consumed <= n
    && PassKeys(dir, n, j, consumed)
    && PassUntouched(before, dir, n, consumed)
    && PassBag(before, dir, j, consumed)
    && PassSorted(before, dir, j)
    && PassNonEmpty(before, dir, j, consumed)
  }

  ghost predicate PassKeys(dir: map<nat, seq<Record>>, n: nat, j: nat, consumed: nat)
  {
    forall k :: k in dir <==> (1 <= k <= j || consumed < k <= n)
  }

  predicate PassUntouched(before: map<nat, seq<Record>>, dir: map<nat, seq<Record>>, n: nat, consumed: nat)
  {
    forall k :: consumed < k <= n ==> k in before && k in dir && dir[k] == before[k]
  }

  ghost predicate PassBag(before: map<nat, seq<Record>>, dir: map<nat, seq<Record>>, j: nat, consumed: nat)
  {
    FilesBag(dir, Range(1, j + 1)) == FilesBag(before, Range(1, consumed + 1))
  }

  predicate PassSorted(before: map<nat, seq<Record>>, dir: map<nat, seq<Record>>, j: nat)
  {
    RunFilesSorted(before) ==> forall k :: 1 <= k <= j && k in dir ==> Sorted(dir[k])
  }

  predicate PassNonEmpty(before: map<nat, seq<Record>>, dir: map<nat, seq<Record>>, j: nat, consumed: nat)
  {
    (forall k :: 1 <= k <= consumed && k in before ==> before[k] != []) <==>
    (forall k :: 1 <= k <= j && k in dir ==> dir[k] != [])
  }

  lemma PassStart(before: map<nat, seq<Record>>, n: nat)
    requires forall k :: k in before <==> 1 <= k <= n
    ensures PassState(before, before, n, 0, 0)
  {
  }

  /**
   * The run files are exactly 1..m and hold between them the records of the run files
   * 1..n of `before`; ordered runs stay ordered and runs with lines keep having lines.
   */
  ghost predicate Renumbered(before: map<nat, seq<Record>>, dir: map<nat, seq<Record>>, n: nat, m: nat)
  {
    && (forall k :: k in dir <==> 1 <= k <= m)
    && FilesBag(dir, Range(1, m + 1)) == FilesBag(before, Range(1, n + 1))
    && (RunFilesSorted(before) ==> RunFilesSorted(dir))
    && (NonEmptyRuns(dir) <==> NonEmptyRuns(before))
  }

  /** At the end of a pass the files are 1..j, one per batch. */
  lemma PassEnd(before: map<nat, seq<Record>>, dir: map<nat, seq<Record>>, n: nat, j: nat)
    requires forall k :: k in before <==> 1 <= k <= n
    requires PassState(before, dir, n, j, n)
    ensures Renumbered(before, dir, n, j)
  {
    assert PassKeys(dir, n, j, n) && PassNonEmpty(before, dir, j, n);
    assert forall k :: k in dir <==> 1 <= k <= j;
    assert NonEmptyRuns(dir) <==> forall k :: 1 <= k <= j && k in dir ==> dir[k] != [];
    assert NonEmptyRuns(before) <==> forall k :: 1 <= k <= n && k in before ==> before[k] != [];
  }

  /** Before the first pass: the files 1..n, as they are. */
  lemma RenumberedStart(dir: map<nat, seq<Record>>, n: nat)
    requires forall k :: k in dir <==> 1 <= k <= n
    ensures Renumbered(dir, dir, n, n)
  {
  }

  /** Two passes one after the other. */
  lemma RenumberedTwice(a: map<nat, seq<Record>>, b: map<nat, seq<Record>>, c: map<nat, seq<Record>>,
                        n: nat, m: nat, p: nat)
    requires Renumbered(a, b, n, m) && Renumbered(b, c, m, p)
    ensures Renumbered(a, c, n, p)
  {
  }

  /** Mid-pass, every file present is ordered when the files the pass started from were. */
  lemma PassAllSorted(before: map<nat, seq<Record>>, dir: map<nat, seq<Record>>, n: nat, j: nat, consumed: nat)
    requires PassState(before, dir, n, j, consumed) && RunFilesSorted(before)
    ensures RunFilesSorted(dir)
  {
  }

  /** A batch of one file is moved to the number of its batch, which no file holds yet. */
  lemma PassMoved(before: map<nat, seq<Record>>, dir: map<nat, seq<Record>>, n: nat, j: nat, consumed: nat)
    requires PassState(before, dir, n, j, consumed) && consumed < n && j < consumed
    ensures consumed + 1 in dir && j + 1 !in dir
    ensures PassState(before, (dir - {consumed + 1})[j + 1 := dir[consumed + 1]], n, j + 1, consumed + 1)
  {
    var moved := (dir - {consumed + 1})[j + 1 := dir[consumed + 1]];
    MovedKeys(before, dir, moved, n, j, consumed);
    MovedBag(before, dir, moved, j, consumed);
    MovedNonEmpty(before, dir, moved, j, consumed);
  }

  lemma MovedKeys(before: map<nat, seq<Record>>, dir: map<nat, seq<Record>>, moved: map<nat, seq<Record>>,
                  n: nat, j: nat, consumed: nat)
    requires PassKeys(dir, n, j, consumed) && PassUntouched(before, dir, n, consumed)
    requires PassSorted(before, dir, j) && j < consumed < n
    requires moved == (dir - {consumed + 1})[j + 1 := dir[consumed + 1]]
    ensures consumed + 1 in before && consumed + 1 in dir && dir[consumed + 1] == before[consumed + 1]
    ensures j + 1 !in dir && forall k :: 1 <= k <= j ==> k in dir
    ensures PassKeys(moved, n, j + 1, consumed + 1) && PassUntouched(before, moved, n, consumed + 1)
    ensures PassSorted(before, moved, j + 1)
  {
  }

  lemma MovedBag(before: map<nat, seq<Record>>, dir: map<nat, seq<Record>>, moved: map<nat, seq<Record>>,
                 j: nat, consumed: nat)
    requires PassBag(before, dir, j, consumed) && j < consumed
    requires consumed + 1 in before && consumed + 1 in dir && dir[consumed + 1] == before[consumed + 1]
    requires moved == (dir - {consumed + 1})[j + 1 := dir[consumed + 1]]
    ensures PassBag(before, moved, j + 1, consumed + 1)
  {
    var f := consumed + 1;
    RangeMembers(1, j + 1);
    FilesBagAgree(moved, dir, Range(1, j + 1));
    RangeSnoc(1, j + 1);
    RangeSnoc(1, f);
    FilesBagAppend(moved, Range(1, j + 1), [j + 1]);
    FilesBagAppend(before, Range(1, f), [f]);
    FilesBagOne(moved, j + 1);
    FilesBagOne(before, f);
  }

  lemma MovedNonEmpty(before: map<nat, seq<Record>>, dir: map<nat, seq<Record>>, moved: map<nat, seq<Record>>,
                      j: nat, consumed: nat)
    requires PassNonEmpty(before, dir, j, consumed) && j < consumed
    requires consumed + 1 in before && consumed + 1 in dir && dir[consumed + 1] == before[consumed + 1]
    requires moved == (dir - {consumed + 1})[j + 1 := dir[consumed + 1]]
    requires forall k :: 1 <= k <= j ==> k in dir
    ensures PassNonEmpty(before, moved, j + 1, consumed + 1)
  {
    var f := consumed + 1;
    assert forall k :: 1 <= k <= j ==> k in moved && moved[k] == dir[k];
    assert j + 1 in moved && moved[j + 1] == before[f];
    if before[f] != [] {
      assert (forall k :: 1 <= k <= f && k in before ==> before[k] != []) <==>
             (forall k :: 1 <= k <= consumed && k in before ==> before[k] != []);
      assert (forall k :: 1 <= k <= j + 1 && k in moved ==> moved[k] != []) <==>
             (forall k :: 1 <= k <= j && k in dir ==> dir[k] != []);
    }
  }

  /** A batch of the files consumed+1..last is merged into the file numbered j + 1. */
  lemma PassMerged(before: map<nat, seq<Record>>, dir: map<nat, seq<Record>>, n: nat, j: nat, consumed: nat,
                   last: nat, out: seq<Record>)
    requires PassState(before, dir, n, j, consumed) && consumed < last <= n
    requires multiset(out) == FilesBag(dir, Range(consumed + 1, last + 1))
    requires RunFilesSorted(before) ==> Sorted(out)
    requires forall k :: consumed < k <= last ==> k in dir && dir[k] != []
    ensures PassState(before, Deleted(dir, Range(consumed + 1, last + 1))[j + 1 := out], n, j + 1, last)
  {
    MergedKeys(dir, out, n, j, consumed, last);
    MergedUntouched(before, dir, out, n, j, consumed, last);
    MergedBag(before, dir, out, n, j, consumed, last);
    MergedSorted(before, dir, out, n, j, consumed, last);
    MergedNonEmpty(before, dir, out, n, j, consumed, last);
  }

  /** The files 1..j written earlier in the pass survive the merge of a later batch. */
  lemma MergedKeeps(dir: map<nat, seq<Record>>, out: seq<Record>, n: nat, j: nat, consumed: nat, last: nat)
    requires PassKeys(dir, n, j, consumed) && j <= consumed < last <= n
    ensures var merged := Deleted(dir, Range(consumed + 1, last + 1))[j + 1 := out];
            && (forall k :: 1 <= k <= j ==> k in merged && k in dir && merged[k] == dir[k])
            && j + 1 in merged && merged[j + 1] == out
  {
    DeletedFiles(dir, Range(consumed + 1, last + 1));
    RangeMembers(consumed + 1, last + 1);
  }

  lemma MergedKeys(dir: map<nat, seq<Record>>, out: seq<Record>, n: nat, j: nat, consumed: nat, last: nat)
    requires PassKeys(dir, n, j, consumed) && j <= consumed < last <= n
    ensures PassKeys(Deleted(dir, Range(consumed + 1, last + 1))[j + 1 := out], n, j + 1, last)
  {
    DeletedFiles(dir, Range(consumed + 1, last + 1));
    RangeMembers(consumed + 1, last + 1);
  }

  lemma MergedUntouched(before: map<nat, seq<Record>>, dir: map<nat, seq<Record>>, out: seq<Record>,
                        n: nat, j: nat, consumed: nat, last: nat)
    requires PassUntouched(before, dir, n, consumed) && j <= consumed < last <= n
    ensures PassUntouched(before, Deleted(dir, Range(consumed + 1, last + 1))[j + 1 := out], n, last)
  {
    DeletedFiles(dir, Range(consumed + 1, last + 1));
    RangeMembers(consumed + 1, last + 1);
  }

  lemma MergedBag(before: map<nat, seq<Record>>, dir: map<nat, seq<Record>>, out: seq<Record>,
                  n: nat, j: nat, consumed: nat, last: nat)
    requires PassKeys(dir, n, j, consumed) && PassUntouched(before, dir, n, consumed)
    requires PassBag(before, dir, j, consumed) && j <= consumed < last <= n
    requires multiset(out) == FilesBag(dir, Range(consumed + 1, last + 1))
    ensures PassBag(before, Deleted(dir, Range(consumed + 1, last + 1))[j + 1 := out], j + 1, last)
  {
    var batch := Range(consumed + 1, last + 1);
    MergedKeeps(dir, out, n, j, consumed, last);
    WrittenBag(Deleted(dir, batch)[j + 1 := out], dir, j);
    RangeMembers(consumed + 1, last + 1);
    FilesBagAgree(dir, before, batch);
    ConsumedBag(before, consumed, last);
  }

  /** The files 1..j+1 after file j+1 is written, when 1..j are as they were. */
  lemma WrittenBag(merged: map<nat, seq<Record>>, dir: map<nat, seq<Record>>, j: nat)
    requires forall k :: 1 <= k <= j ==> k in merged && k in dir && merged[k] == dir[k]
    requires j + 1 in merged
    ensures FilesBag(merged, Range(1, j + 2)) == FilesBag(dir, Range(1, j + 1)) + multiset(merged[j + 1])
  {
    RangeMembers(1, j + 1);
    RangeSnoc(1, j + 1);
    FilesBagAppend(merged, Range(1, j + 1), [j + 1]);
    FilesBagAgree(merged, dir, Range(1, j + 1));
    FilesBagOne(merged, j + 1);
  }

  /** The files 1..last hold the files 1..consumed and the batch after them. */
  lemma ConsumedBag(before: map<nat, seq<Record>>, consumed: nat, last: nat)
    requires consumed <= last
    ensures FilesBag(before, Range(1, last + 1))
            == FilesBag(before, Range(1, consumed + 1)) + FilesBag(before, Range(consumed + 1, last + 1))
  {
    RangeSplit(1, consumed + 1, last + 1);
    FilesBagAppend(before, Range(1, consumed + 1), Range(consumed + 1, last + 1));
  }

  /** Merging runs that all have lines gives a run with lines. */
  lemma OutNonEmpty(dir: map<nat, seq<Record>>, consumed: nat, last: nat, out: seq<Record>)
    requires consumed < last && consumed + 1 in dir && dir[consumed + 1] != []
    requires multiset(out) == FilesBag(dir, Range(consumed + 1, last + 1))
    ensures out != []
  {
    var batch := Range(consumed + 1, last + 1);
    assert batch[0] == consumed + 1;
    assert multiset(dir[consumed + 1]) <= multiset(out);
  }

  lemma MergedSorted(before: map<nat, seq<Record>>, dir: map<nat, seq<Record>>, out: seq<Record>,
                     n: nat, j: nat, consumed: nat, last: nat)
    requires PassKeys(dir, n, j, consumed) && PassSorted(before, dir, j) && j <= consumed < last <= n
    requires RunFilesSorted(before) ==> Sorted(out)
    ensures PassSorted(before, Deleted(dir, Range(consumed + 1, last + 1))[j + 1 := out], j + 1)
  {
    MergedKeeps(dir, out, n, j, consumed, last);
  }

  lemma MergedNonEmpty(before: map<nat, seq<Record>>, dir: map<nat, seq<Record>>, out: seq<Record>,
                       n: nat, j: nat, consumed: nat, last: nat)
    requires PassKeys(dir, n, j, consumed) && PassUntouched(before, dir, n, consumed)
    requires PassNonEmpty(before, dir, j, consumed) && j <= consumed < last <= n
    requires forall k :: consumed < k <= last ==> k in dir && dir[k] != []
    requires multiset(out) == FilesBag(dir, Range(consumed + 1, last + 1))
    ensures PassNonEmpty(before, Deleted(dir, Range(consumed + 1, last + 1))[j + 1 := out], j + 1, last)
  {
    var merged := Deleted(dir, Range(consumed + 1, last + 1))[j + 1 := out];
    MergedKeeps(dir, out, n, j, consumed, last);
    OutNonEmpty(dir, consumed, last, out);
    NonEmptyBefore(before, consumed, last);
    NonEmptyAfter(dir, merged, j, out);
  }

  /** The files consumed+1..last are non-empty, so they do not change whether 1..last all are. */
  lemma NonEmptyBefore(before: map<nat, seq<Record>>, consumed: nat, last: nat)
    requires consumed <= last
    requires forall k :: consumed < k <= last && k in before ==> before[k] != []
    ensures (forall k :: 1 <= k <= last && k in before ==> before[k] != []) <==>
            (forall k :: 1 <= k <= consumed && k in before ==> before[k] != [])
  {
  }

  /** The files 1..j are kept and file j+1 is non-empty. */
  lemma NonEmptyAfter(dir: map<nat, seq<Record>>, merged: map<nat, seq<Record>>, j: nat, out: seq<Record>)
    requires forall k :: 1 <= k <= j ==> k in merged && k in dir && merged[k] == dir[k]
    requires j + 1 in merged && merged[j + 1] == out && out != []
    ensures (forall k :: 1 <= k <= j + 1 && k in merged ==> merged[k] != []) <==>
            (forall k :: 1 <= k <= j && k in dir ==> dir[k] != [])
  {
  }

}
