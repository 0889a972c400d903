/**
 * The k-way merge of `Sorter.Merge`: stream readers over the runs, the frontier of
 * `Row`s (one buffered record per reader not yet finished), and the invariant each
 * step of the merge loop keeps.
 */
module Merging {
  import opened Results
  import opened Seqs
  import opened Records
  import opened Comparer
  import opened Sorting

  /** A StreamReader over a run file: the run's records and how many lines were read. */
  datatype Reader = Reader(run: seq<Record>, pos: nat) {
    predicate EndOfStream() { pos >= |run| }

    /** The records read so far. */
    function Read(): seq<Record> { if pos <= |run| then run[..pos] else run }
  }

  /** `Sorter.Row`: a buffered record and the index of the reader it came from. */
  datatype Row = Row(value: Record, reader: nat)

  /** The frontier is sorted on the buffered record alone. */
  function RowKey(r: Row): Option<Record> { Some(r.value) }

  function ValueOf(r: Row): seq<Record> { [r.value] }
  function ReaderOf(r: Row): seq<nat> { [r.reader] }

  function Values(rows: seq<Row>): seq<Record> { FlatMap(rows, ValueOf) }
  function ReadersOf(rows: seq<Row>): seq<nat> { FlatMap(rows, ReaderOf) }

  lemma {:induction false} Projections(rows: seq<Row>)
    ensures |Values(rows)| == |rows| && |ReadersOf(rows)| == |rows|
    ensures forall k :: 0 <= k < |rows| ==> Values(rows)[k] == rows[k].value
    ensures forall k :: 0 <= k < |rows| ==> ReadersOf(rows)[k] == rows[k].reader
  {
    if rows != [] {
      Projections(rows[1..]);
    }
  }

  // ---------------------------------------------------------------- readers

  /** Everything read so far, from every reader. */
  ghost function Consumed(rs: seq<Reader>): multiset<Record>
  {
    if rs == [] then multiset{} else multiset(rs[0].Read()) + Consumed(rs[1..])
  }

  /** Every record of every run. */
  ghost function Total(rs: seq<Reader>): multiset<Record>
  {
    if rs == [] then multiset{} else multiset(rs[0].run) + Total(rs[1..])
  }

  /** The number of lines a reader has not yet delivered. */
  function Left(r: Reader): nat { if r.pos <= |r.run| then |r.run| - r.pos else 0 }

  /** The number of lines not yet read, over all readers. */
  ghost function Unread(rs: seq<Reader>): nat
  {
    if rs == [] then 0 else Left(rs[0]) + Unread(rs[1..])
  }

  /** The readers after reader i delivered one more line. */
  function Bump(rs: seq<Reader>, i: nat): seq<Reader>
    requires i < |rs|
  {
    rs[i := Reader(rs[i].run, rs[i].pos + 1)]
  }

  lemma BumpTail(rs: seq<Reader>, i: nat)
    requires i < |rs|
    ensures Bump(rs, i)[0] == if i == 0 then Reader(rs[0].run, rs[0].pos + 1) else rs[0]
    ensures Bump(rs, i)[1..] == if i == 0 then rs[1..] else Bump(rs[1..], i - 1)
  {
  }

  /** Reading one more line from reader i adds that line to what was read. */
  lemma {:induction false} ConsumedBump(rs: seq<Reader>, i: nat)
    requires i < |rs| && rs[i].pos < |rs[i].run|
    ensures Consumed(Bump(rs, i)) == Consumed(rs) + multiset{rs[i].run[rs[i].pos]}
  {
    BumpTail(rs, i);
    if i == 0 {
      var r := rs[0];
      assert r.run[..r.pos + 1] == r.run[..r.pos] + [r.run[r.pos]];
    } else {
      ConsumedBump(rs[1..], i - 1);
    }
  }

  /** ... and leaves one line fewer unread ... */
  lemma {:induction false} UnreadBump(rs: seq<Reader>, i: nat)
    requires i < |rs| && rs[i].pos < |rs[i].run|
    ensures Unread(Bump(rs, i)) + 1 == Unread(rs)
  {
    BumpTail(rs, i);
    if i > 0 {
      UnreadBump(rs[1..], i - 1);
    }
  }

  /** ... and changes no run. */
  lemma {:induction false} TotalBump(rs: seq<Reader>, i: nat)
    requires i < |rs|
    ensures Total(Bump(rs, i)) == Total(rs)
  {
    BumpTail(rs, i);
    if i > 0 {
      TotalBump(rs[1..], i - 1);
    }
  }

  /** Once every reader reached its end, everything has been read. */
  lemma {:induction false} AllRead(rs: seq<Reader>)
    requires forall i :: 0 <= i < |rs| ==> rs[i].pos == |rs[i].run|
    ensures Consumed(rs) == Total(rs)
  {
    if rs != [] {
      assert rs[0].run[..rs[0].pos] == rs[0].run;
      AllRead(rs[1..]);
    }
  }

  // ---------------------------------------------------------------- the invariant

  /** Every reader has delivered its first line and not gone past its end. */
  ghost predicate ReadersOk(rs: seq<Reader>)
  {
    forall i :: 0 <= i < |rs| ==> 1 <= rs[i].pos <= |rs[i].run|
  }

  /** Each buffered row is the last line its (unfinished) reader delivered. */
  ghost predicate RowsAgree(rs: seq<Reader>, rows: seq<Row>, finished: seq<nat>)
  {
    forall x :: x in rows ==>
      && x.reader < |rs| && x.reader !in finished
      && 1 <= rs[x.reader].pos <= |rs[x.reader].run|
      && x.value == rs[x.reader].run[rs[x.reader].pos - 1]
  }

  /** Every reader is finished or has a row in the frontier. */
  ghost predicate Covered(n: nat, rows: seq<Row>, finished: seq<nat>)
  {
    forall i :: 0 <= i < n ==> i in finished || i in ReadersOf(rows)
  }

  /** No reader has two rows in the frontier. */
  ghost predicate ReadersOnce(rows: seq<Row>)
  {
    forall i :: multiset(ReadersOf(rows))[i] <= 1
  }

  /** A finished reader has delivered all its lines. */
  ghost predicate FinishedAtEnd(rs: seq<Reader>, finished: seq<nat>)
  {
    forall i :: i in finished ==> i < |rs| && rs[i].pos == |rs[i].run|
  }

  /**
   * The frontier holds exactly one row per reader not yet finished: the last line that
   * reader delivered.
   */
  ghost predicate FrontierInv(rs: seq<Reader>, rows: seq<Row>, finished: seq<nat>)
  {
    && ReadersOk(rs)
    && |rows| + |finished| == |rs|
    && RowsAgree(rs, rows, finished)
    && Covered(|rs|, rows, finished)
    && ReadersOnce(rows)
    && FinishedAtEnd(rs, finished)
  }

  /** What was written plus what is buffered is exactly what was read. */
  ghost predicate OutputInv(rs: seq<Reader>, rows: seq<Row>, out: seq<Record>)
  {
    multiset(out) + multiset(Values(rows)) == Consumed(rs)
  }

  /** Nothing buffered is smaller than the last record written. */
  ghost predicate Above(rows: seq<Row>, out: seq<Record>)
  {
    out != [] ==> forall x :: x in rows ==> Le(out[|out| - 1], x.value)
  }

  /** The output is sorted and the frontier does not undercut it. */
  ghost predicate OrderInv(rows: seq<Row>, out: seq<Record>)
  {
    Sorted(out) && Above(rows, out)
  }

  ghost predicate RunsSorted(rs: seq<Reader>)
  {
    forall i :: 0 <= i < |rs| ==> Sorted(rs[i].run)
  }

  // ---------------------------------------------------------------- opening the readers

  /** The readers right after `InitializeStreamReaders`: each has delivered one line. */
  function Opened(runs: seq<seq<Record>>): seq<Reader>
  {
    seq(|runs|, i requires 0 <= i < |runs| => Reader(runs[i], 1))
  }

  /** The frontier right after `InitializeStreamReaders`: each reader's first line, in order. */
  function Primed(runs: seq<seq<Record>>): seq<Row>
    requires forall i :: 0 <= i < |runs| ==> runs[i] != []
  {
    seq(|runs|, i requires 0 <= i < |runs| => Row(runs[i][0], i))
  }

  lemma {:induction false} OpenedConsumed(runs: seq<seq<Record>>)
    requires forall i :: 0 <= i < |runs| ==> runs[i] != []
    ensures Consumed(Opened(runs)) == multiset(FirstLines(runs))
  {
    if runs != [] {
      OpenedConsumed(runs[1..]);
      assert Opened(runs)[1..] == Opened(runs[1..]);
      assert FirstLines(runs) == [runs[0][0]] + FirstLines(runs[1..]);
      assert Opened(runs)[0].Read() == [runs[0][0]];
    }
  }

  function FirstLines(runs: seq<seq<Record>>): seq<Record>
    requires forall i :: 0 <= i < |runs| ==> runs[i] != []
  {
    seq(|runs|, i requires 0 <= i < |runs| => runs[i][0])
  }

  lemma OpenedTotal(runs: seq<seq<Record>>)
    ensures Total(Opened(runs)) == Bag(runs)
  {
    if runs != [] {
      assert Opened(runs)[1..] == Opened(runs[1..]);
      OpenedTotal(runs[1..]);
    }
  }

  /** Every record of every run. */
  ghost function Bag(runs: seq<seq<Record>>): multiset<Record>
  {
    if runs == [] then multiset{} else multiset(runs[0]) + Bag(runs[1..])
  }

  /** The invariant holds once every reader has delivered its first line. */
  lemma InitEstablishes(runs: seq<seq<Record>>)
    requires forall i :: 0 <= i < |runs| ==> runs[i] != []
    ensures FrontierInv(Opened(runs), Primed(runs), [])
    ensures OutputInv(Opened(runs), Primed(runs), [])
    ensures OrderInv(Primed(runs), [])
    ensures Total(Opened(runs)) == Bag(runs)
    ensures Unread(Opened(runs)) + |runs| == |Bag(runs)|
  {
    InitFrontier(runs);
    InitOutput(runs);
    OpenedTotal(runs);
    OpenedUnread(runs);
  }

  lemma InitFrontier(runs: seq<seq<Record>>)
    requires forall i :: 0 <= i < |runs| ==> runs[i] != []
    ensures FrontierInv(Opened(runs), Primed(runs), [])
  {
    var rows := Primed(runs);
    Projections(rows);
    assert Distinct(ReadersOf(rows));
    DistinctCounts(ReadersOf(rows));
    forall i | 0 <= i < |runs| ensures i in ReadersOf(rows) {
      assert ReadersOf(rows)[i] == i;
    }
  }

  lemma InitOutput(runs: seq<seq<Record>>)
    requires forall i :: 0 <= i < |runs| ==> runs[i] != []
    ensures OutputInv(Opened(runs), Primed(runs), [])
  {
    Projections(Primed(runs));
    OpenedConsumed(runs);
    assert Values(Primed(runs)) == FirstLines(runs);
  }

  lemma {:induction false} OpenedUnread(runs: seq<seq<Record>>)
    requires forall i :: 0 <= i < |runs| ==> runs[i] != []
    ensures Unread(Opened(runs)) + |runs| == |Bag(runs)|
  {
    if runs != [] {
      assert Opened(runs)[1..] == Opened(runs[1..]);
      OpenedUnread(runs[1..]);
    }
  }

  // ---------------------------------------------------------------- sorting the frontier

  lemma SameMembers<T>(a: seq<T>, b: seq<T>)
    requires multiset(a) == multiset(b)
    ensures forall x :: x in a <==> x in b
  {
    forall x ensures x in a <==> x in b {
      assert x in a <==> x in multiset(a);
      assert x in b <==> x in multiset(b);
    }
  }

  /**
   * Sorting the frontier (`rows.Sort`) keeps the invariant, whichever order the sort
   * leaves rows with equal records in.
   */
  lemma SortKeeps(rs: seq<Reader>, rows: seq<Row>, sorted: seq<Row>, finished: seq<nat>, out: seq<Record>)
    requires FrontierInv(rs, rows, finished) && OutputInv(rs, rows, out)
    requires multiset(sorted) == multiset(rows)
    ensures FrontierInv(rs, sorted, finished) && OutputInv(rs, sorted, out)
    ensures OrderInv(rows, out) ==> OrderInv(sorted, out)
  {
    PermutedFlatMap(sorted, rows, ValueOf);
    PermutedFlatMap(sorted, rows, ReaderOf);
    SameMembers(sorted, rows);
    SameMembers(ReadersOf(sorted), ReadersOf(rows));
    assert |sorted| == |multiset(sorted)| == |rows|;
    assert RowsAgree(rs, sorted, finished);
    assert Covered(|rs|, sorted, finished);
    assert Above(rows, out) ==> Above(sorted, out);
  }

  /** The frontier sort as modelled: sorted on the record, and a permutation. */
  lemma SortRows(rows: seq<Row>)
    ensures SortedBy(SortBy(rows, RowKey), RowKey)
    ensures multiset(SortBy(rows, RowKey)) == multiset(rows)
  {
    SortBySorted(rows, RowKey);
    SortByPermutes(rows, RowKey);
  }

  // ---------------------------------------------------------------- writing the head row

  /** A sorted frontier starts with a minimum: the record `Merge` writes next. */
  lemma HeadIsMinimum(rows: seq<Row>)
    requires SortedBy(rows, RowKey) && rows != []
    ensures forall x :: x in rows ==> Le(rows[0].value, x.value)
  {
    forall x | x in rows ensures Le(rows[0].value, x.value) {
      var k :| 0 <= k < |rows| && rows[k] == x;
      if k > 0 { assert Compare(RowKey(rows[0]), RowKey(rows[k])) <= 0; }
    }
  }

  lemma AppendSorted(out: seq<Record>, v: Record)
    requires Sorted(out)
    requires out != [] ==> Le(out[|out| - 1], v)
    ensures Sorted(out + [v])
  {
    var o := out + [v];
    forall i, j | 0 <= i < j < |o| ensures Compare(RecordKey(o[i]), RecordKey(o[j])) <= 0 {
      if j == |out| && i < |out| - 1 {
        assert Le(out[i], out[|out| - 1]);
        Transitive(Some(out[i]), Some(out[|out| - 1]), Some(v));
      }
    }
  }

  /** Writing the head of a sorted frontier keeps the output sorted. */
  lemma WriteHeadSorted(rows: seq<Row>, out: seq<Record>)
    requires OrderInv(rows, out) && SortedBy(rows, RowKey) && rows != []
    ensures Sorted(out + [rows[0].value])
    ensures forall x :: x in rows ==> Le(rows[0].value, x.value)
  {
    HeadIsMinimum(rows);
    AppendSorted(out, rows[0].value);
  }

  /** In a frontier where each reader appears once, only the head row has the head's reader. */
  lemma HeadReaderOnce(rows: seq<Row>, k: nat)
    requires ReadersOnce(rows) && 0 < k < |rows|
    ensures rows[k].reader != rows[0].reader
  {
    Projections(rows);
    var rd := ReadersOf(rows);
    assert rd == [rd[0]] + rd[1..k] + [rd[k]] + rd[k + 1..];
    assert multiset(rd) == multiset{rd[0]} + multiset(rd[1..k]) + multiset{rd[k]} + multiset(rd[k + 1..]);
    assert multiset(rd)[rd[0]] >= 1 + multiset{rd[k]}[rd[0]];
  }

  /**
   * The head row's reader is at its end: the row is written and removed, and the reader
   * joins the finished ones.
   */
  lemma FinishKeeps(rs: seq<Reader>, rows: seq<Row>, finished: seq<nat>, out: seq<Record>)
    requires FrontierInv(rs, rows, finished) && OutputInv(rs, rows, out)
    requires SortedBy(rows, RowKey) && rows != []
    requires rs[rows[0].reader].EndOfStream()
    ensures FrontierInv(rs, rows[1..], finished + [rows[0].reader])
    ensures OutputInv(rs, rows[1..], out + [rows[0].value])
    ensures OrderInv(rows, out) ==> OrderInv(rows[1..], out + [rows[0].value])
  {
    FinishFrontier(rs, rows, finished);
    ValuesHead(rows);
    assert multiset(out + [rows[0].value]) == multiset(out) + multiset{rows[0].value};
    if OrderInv(rows, out) {
      WriteHeadSorted(rows, out);
    }
  }

  lemma FinishFrontier(rs: seq<Reader>, rows: seq<Row>, finished: seq<nat>)
    requires FrontierInv(rs, rows, finished) && rows != []
    requires rs[rows[0].reader].EndOfStream()
    ensures FrontierInv(rs, rows[1..], finished + [rows[0].reader])
  {
    var idx := rows[0].reader;
    var rest := rows[1..];
    var finished' := finished + [idx];
    assert rows == [rows[0]] + rest;
    assert ReadersOf(rows) == [idx] + ReadersOf(rest);
    forall x | x in rest ensures x.reader != idx {
      var k :| 0 <= k < |rest| && rest[k] == x;
      HeadReaderOnce(rows, k + 1);
    }
    assert RowsAgree(rs, rest, finished');
    assert ReadersOnce(rest) by {
      forall i ensures multiset(ReadersOf(rest))[i] <= 1 {
        assert multiset(ReadersOf(rows))[i] >= multiset(ReadersOf(rest))[i];
      }
    }
    forall i | 0 <= i < |rs| ensures i in finished' || i in ReadersOf(rest) {
      if i != idx && i !in finished {
        assert i in ReadersOf(rows);
      }
    }
  }

  /** The reader after `ReadLineAsync` on the head row's reader. */
  function Advanced(rs: seq<Reader>, rows: seq<Row>): seq<Reader>
    requires rows != [] && rows[0].reader < |rs|
  {
    Bump(rs, rows[0].reader)
  }

  /** The frontier after its head row is replaced by the next line of the same reader. */
  function Refilled(rs: seq<Reader>, rows: seq<Row>): seq<Row>
    requires rows != [] && rows[0].reader < |rs| && rs[rows[0].reader].pos < |rs[rows[0].reader].run|
  {
    var r := rs[rows[0].reader];
    rows[0 := Row(r.run[r.pos], rows[0].reader)]
  }

  /**
   * The head row's reader has more lines: the row is written and replaced by that
   * reader's next line.
   */
  lemma AdvanceKeeps(rs: seq<Reader>, rows: seq<Row>, finished: seq<nat>, out: seq<Record>)
    requires FrontierInv(rs, rows, finished) && OutputInv(rs, rows, out)
    requires SortedBy(rows, RowKey) && rows != []
    requires !rs[rows[0].reader].EndOfStream()
    ensures FrontierInv(Advanced(rs, rows), Refilled(rs, rows), finished)
    ensures OutputInv(Advanced(rs, rows), Refilled(rs, rows), out + [rows[0].value])
    ensures Unread(Advanced(rs, rows)) < Unread(rs)
    ensures Total(Advanced(rs, rows)) == Total(rs)
    ensures RunsSorted(rs) ==> RunsSorted(Advanced(rs, rows))
    ensures RunsSorted(rs) && OrderInv(rows, out) ==> OrderInv(Refilled(rs, rows), out + [rows[0].value])
  {
    HeadAgrees(rs, rows, finished);
    AdvanceFrontier(rs, rows, finished);
    AdvanceOutput(rs, rows, out);
    UnreadBump(rs, rows[0].reader);
    TotalBump(rs, rows[0].reader);
    if RunsSorted(rs) {
      AdvanceRuns(rs, rows);
      if OrderInv(rows, out) {
        AdvanceOrder(rs, rows, out);
      }
    }
  }

  /** The head row is the last line its reader delivered. */
  lemma HeadAgrees(rs: seq<Reader>, rows: seq<Row>, finished: seq<nat>)
    requires FrontierInv(rs, rows, finished) && rows != []
    ensures ReadersOk(rs) && rows[0].reader < |rs|
    ensures 1 <= rs[rows[0].reader].pos <= |rs[rows[0].reader].run|
    ensures rows[0].value == rs[rows[0].reader].run[rs[rows[0].reader].pos - 1]
  {
    assert rows[0] in rows;
  }

  lemma AdvanceRuns(rs: seq<Reader>, rows: seq<Row>)
    requires RunsSorted(rs) && rows != [] && rows[0].reader < |rs|
    ensures RunsSorted(Advanced(rs, rows))
  {
    var rs' := Advanced(rs, rows);
    forall i | 0 <= i < |rs'| ensures rs'[i].run == rs[i].run {}
  }

  lemma AdvanceOutput(rs: seq<Reader>, rows: seq<Row>, out: seq<Record>)
    requires OutputInv(rs, rows, out) && rows != [] && rows[0].reader < |rs|
    requires rs[rows[0].reader].pos < |rs[rows[0].reader].run|
    ensures OutputInv(Advanced(rs, rows), Refilled(rs, rows), out + [rows[0].value])
  {
    var idx, rows' := rows[0].reader, Refilled(rs, rows);
    var next := rs[idx].run[rs[idx].pos];
    ConsumedBump(rs, idx);
    ValuesHead(rows);
    ValuesHead(rows');
    assert rows'[1..] == rows[1..] && rows'[0].value == next;
    var rest := multiset(Values(rows[1..]));
    calc {
      multiset(out + [rows[0].value]) + multiset(Values(rows'));
      multiset(out) + multiset{rows[0].value} + (multiset{next} + rest);
      (multiset(out) + multiset(Values(rows))) + multiset{next};
      Consumed(rs) + multiset{next};
    }
  }

  lemma ValuesHead(rows: seq<Row>)
    requires rows != []
    ensures multiset(Values(rows)) == multiset{rows[0].value} + multiset(Values(rows[1..]))
  {
    assert Values(rows) == [rows[0].value] + Values(rows[1..]);
  }

  lemma AdvanceFrontier(rs: seq<Reader>, rows: seq<Row>, finished: seq<nat>)
    requires FrontierInv(rs, rows, finished) && rows != []
    requires !rs[rows[0].reader].EndOfStream()
    ensures FrontierInv(Advanced(rs, rows), Refilled(rs, rows), finished)
  {
    var idx := rows[0].reader;
    var rows' := Refilled(rs, rows);
    var rs' := Advanced(rs, rows);
    assert rows == [rows[0]] + rows[1..] && rows' == [rows'[0]] + rows[1..];
    assert ReadersOf(rows') == ReadersOf(rows);
    forall x | x in rows'
      ensures && x.reader < |rs'| && x.reader !in finished
              && 1 <= rs'[x.reader].pos <= |rs'[x.reader].run|
              && x.value == rs'[x.reader].run[rs'[x.reader].pos - 1]
    {
      var k :| 0 <= k < |rows'| && rows'[k] == x;
      if k > 0 {
        HeadReaderOnce(rows, k);
        assert x == rows[k];
      }
    }
  }

  lemma AdvanceOrder(rs: seq<Reader>, rows: seq<Row>, out: seq<Record>)
    requires ReadersOk(rs) && RunsSorted(rs) && OrderInv(rows, out) && SortedBy(rows, RowKey) && rows != []
    requires rows[0].reader < |rs| && rs[rows[0].reader].pos < |rs[rows[0].reader].run|
    requires rows[0].value == rs[rows[0].reader].run[rs[rows[0].reader].pos - 1]
    ensures OrderInv(Refilled(rs, rows), out + [rows[0].value])
  {
    var r := rs[rows[0].reader];
    var next := Row(r.run[r.pos], rows[0].reader);
    WriteHeadSorted(rows, out);
    assert Le(rows[0].value, next.value) by {
      assert Compare(RecordKey(r.run[r.pos - 1]), RecordKey(r.run[r.pos])) <= 0;
    }
    forall x | x in rows[0 := next] ensures Le(rows[0].value, x.value) {
      if x != next {
        var k :| 0 <= k < |rows| && rows[0 := next][k] == x;
        assert x == rows[k];
      }
    }
  }

  // ---------------------------------------------------------------- the end

  /** When the frontier is empty every reader is finished and everything has been written. */
  lemma DoneMeansAllWritten(rs: seq<Reader>, finished: seq<nat>, out: seq<Record>)
    requires FrontierInv(rs, [], finished) && OutputInv(rs, [], out)
    ensures multiset(out) == Total(rs)
  {
    forall i | 0 <= i < |rs| ensures rs[i].pos == |rs[i].run| {
      assert i in finished;
    }
    AllRead(rs);
  }

  // ---------------------------------------------------------------- the merge loop

  /** `List.FindIndex`: the first row buffered for `reader`, or -1. */
  method FindIndex(rows: seq<Row>, reader: nat) returns (k: int)
    ensures -1 <= k < |rows|
    ensures k == -1 <==> forall j :: 0 <= j < |rows| ==> rows[j].reader != reader
    ensures k >= 0 ==> rows[k].reader == reader && forall j :: 0 <= j < k ==> rows[j].reader != reader
  {
    k := 0;
    while k < |rows|
      invariant 0 <= k <= |rows|
      invariant forall j :: 0 <= j < k ==> rows[j].reader != reader
    {
      if rows[k].reader == reader {
        return;
      }
      k := k + 1;
    }
    k := -1;
  }

  /**
   * `List.Sort` on the frontier with the comparer applied to the buffered records. The
   * merge relies only on the result being an ordered rearrangement, so which of several
   * equal rows comes first does not matter.
   */
  method SortFrontier(rows: seq<Row>) returns (sorted: seq<Row>)
    ensures SortedBy(sorted, RowKey) && multiset(sorted) == multiset(rows)
  {
    sorted := SortBy(rows, RowKey);
    SortRows(rows);
  }

  /**
   * The loop of `Sorter.Merge`: sort the frontier, write its first record, then either
   * retire that record's reader (it is at the end of its file) or buffer the reader's next
   * line in its place, until every reader has finished. An empty frontier fails where
   * `rows[0]` would throw.
   */
  method MergeReaders(readers: seq<Reader>, rows: seq<Row>) returns (r: Result<seq<Record>>)
    requires FrontierInv(readers, rows, []) && OutputInv(readers, rows, [])
    requires RunsSorted(readers) ==> OrderInv(rows, [])
    ensures r.Ok? <==> readers != []
    ensures r.Err? ==> r.error == EmptyFrontier
    ensures r.Ok? ==> multiset(r.value) == Total(readers)
    ensures r.Ok? && RunsSorted(readers) ==> Sorted(r.value)
  {
    var streamReaders, frontier := readers, rows;
    var finished: seq<nat> := [];
    var out: seq<Record> := [];
    var done := false;
    while !done
      invariant FrontierInv(streamReaders, frontier, finished) && OutputInv(streamReaders, frontier, out)
      invariant |streamReaders| == |readers| && Total(streamReaders) == Total(readers)
      invariant RunsSorted(readers) ==> RunsSorted(streamReaders) && OrderInv(frontier, out)
      invariant done <==> |readers| > 0 && |finished| == |readers|
      decreases Unread(streamReaders) + |frontier|
    {
      var sorted := SortFrontier(frontier);
      SortKeeps(streamReaders, frontier, sorted, finished, out);
      frontier := sorted;
      if frontier == [] {
        r := Err(EmptyFrontier);
        return;
      }
      var valueToWrite := frontier[0].value;
      var streamReaderIndex := frontier[0].reader;
      if streamReaders[streamReaderIndex].EndOfStream() {
        FinishKeeps(streamReaders, frontier, finished, out);
        var indexToRemove := FindIndex(frontier, streamReaderIndex);
        assert indexToRemove == 0;
        frontier := frontier[1..];
        finished := finished + [streamReaderIndex];
        out := out + [valueToWrite];
        done := |finished| == |streamReaders|;
        continue;
      }
      AdvanceKeeps(streamReaders, frontier, finished, out);
      // ReadLineAsync on the reader, and its line replaces the first row
      streamReaders, frontier := Advanced(streamReaders, frontier), Refilled(streamReaders, frontier);
      out := out + [valueToWrite];
    }
    DoneMeansAllWritten(streamReaders, finished, out);
    r := Ok(out);
  }
}
