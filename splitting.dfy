/**
 * What `SplitFile` produces, as functions of the source bytes and the chunk size C
 * (`ChunkFileSize`): the chunks, and the row count it records for each.
 */
module Splitting {
  import opened Seqs
  import opened Lines

  /**
   * Where the extension after position i stops: just past the next NewLineSign, or at
   * the end of the source.
   */
  function ExtendEnd(s: seq<byte>, i: nat): (e: nat)
    requires i <= |s|
    ensures i <= e <= |s|
    ensures forall k :: i <= k < e - 1 ==> s[k] != NewLineSign
    ensures e > i ==> e == |s| || s[e - 1] == NewLineSign
    decreases |s| - i
  {
    if i == |s| then |s|
    else if s[i] == NewLineSign then i + 1
    else ExtendEnd(s, i + 1)
  }

  function Min(a: nat, b: nat): nat { if a < b then a else b }

  /**
   * The length of the first chunk of a non-empty source: C bytes (or all of it, when
   * shorter), extended to the next NewLineSign when the C-th byte is not one.
   */
  function ChunkEnd(s: seq<byte>, C: nat): (e: nat)
    requires C > 0 && s != []
    ensures Min(C, |s|) <= e <= |s|
    ensures e == |s| || (e >= C && s[e - 1] == NewLineSign)
    ensures s[Min(C, |s|) - 1] == NewLineSign ==> e == Min(C, |s|)
    ensures forall k :: Min(C, |s|) <= k < e - 1 ==> s[k] != NewLineSign
  {
    var m := Min(C, |s|);
    if s[m - 1] == NewLineSign then m else ExtendEnd(s, m)
  }

  /** The chunks `SplitFile` writes, in order. */
  function Chunks(s: seq<byte>, C: nat): (cs: seq<seq<byte>>)
    requires C > 0
    ensures s == [] <==> cs == []
    decreases |s|
  {
    if s == [] then [] else [s[..ChunkEnd(s, C)]] + Chunks(s[ChunkEnd(s, C)..], C)
  }

  /**
   * The row count `SplitFile` records for a chunk: the NewLineSign bytes among its first C
   * bytes, plus one when an extension was read.
   */
  function CountedRows(chunk: seq<byte>, C: nat): nat
  {
    CountNewLines(chunk[..Min(C, |chunk|)]) + (if |chunk| > C then 1 else 0)
  }

  /** The largest recorded row count: the capacity of the scratch array. */
  function MaxRows(cs: seq<seq<byte>>, C: nat): nat
  {
    if cs == [] then 0
    else
      var prev := MaxRows(cs[..|cs| - 1], C);
      var last := CountedRows(cs[|cs| - 1], C);
      if last > prev then last else prev
  }

  /** The capacity is the largest recorded row count: no chunk exceeds it and one attains it. */
  lemma {:induction false} MaxRowsBound(cs: seq<seq<byte>>, C: nat)
    ensures forall k :: 0 <= k < |cs| ==> CountedRows(cs[k], C) <= MaxRows(cs, C)
    ensures cs == [] ==> MaxRows(cs, C) == 0
    ensures cs != [] ==> exists k :: 0 <= k < |cs| && CountedRows(cs[k], C) == MaxRows(cs, C)
  {
    if cs != [] {
      var init := cs[..|cs| - 1];
      MaxRowsBound(init, C);
      assert forall k :: 0 <= k < |cs| - 1 ==> init[k] == cs[k];
    }
  }

  /** Reading on from position p + i of s is reading on from i in what follows p. */
  lemma ExtendEndShift(s: seq<byte>, p: nat, i: nat)
    requires p + i <= |s|
    ensures ExtendEnd(s[p..], i) == ExtendEnd(s, p + i) - p
    decreases |s| - p - i
  {
    if p + i < |s| {
      assert s[p..][i] == s[p + i];
      ExtendEndShift(s, p, i + 1);
    }
  }

  lemma MaxRowsSnoc(cs: seq<seq<byte>>, c: seq<byte>, C: nat)
    ensures MaxRows(cs + [c], C) == if CountedRows(c, C) > MaxRows(cs, C) then CountedRows(c, C) else MaxRows(cs, C)
  {
    assert (cs + [c])[..|cs|] == cs;
  }

  // ---------------------------------------------------------------- properties

  /** Concatenating the chunks in order gives the source back: each byte exactly once. */
  lemma {:induction false} ChunksConcat(s: seq<byte>, C: nat)
    requires C > 0
    ensures Flatten(Chunks(s, C)) == s
    decreases |s|
  {
    if s != [] {
      var e := ChunkEnd(s, C);
      ChunksConcat(s[e..], C);
      var cs := Chunks(s, C);
      assert cs[0] == s[..e] && cs[1..] == Chunks(s[e..], C);
      assert Flatten(cs) == s[..e] + Flatten(Chunks(s[e..], C));
      assert s[..e] + s[e..] == s;
    }
  }

  lemma ChunksTail(s: seq<byte>, C: nat)
    requires C > 0 && s != []
    ensures forall k :: 0 < k < |Chunks(s, C)| ==>
              Chunks(s, C)[k] == Chunks(s[ChunkEnd(s, C)..], C)[k - 1]
  {
  }

  /** Every chunk is non-empty. */
  lemma {:induction false} ChunksNonEmpty(s: seq<byte>, C: nat)
    requires C > 0
    ensures forall k :: 0 <= k < |Chunks(s, C)| ==> Chunks(s, C)[k] != []
    decreases |s|
  {
    if s != [] {
      ChunksNonEmpty(s[ChunkEnd(s, C)..], C);
      ChunksTail(s, C);
    }
  }

  /** Every chunk but the last holds at least C bytes and ends with NewLineSign. */
  lemma {:induction false} ChunksShape(s: seq<byte>, C: nat)
    requires C > 0
    ensures forall k :: 0 <= k < |Chunks(s, C)| - 1 ==>
              |Chunks(s, C)[k]| >= C && EndsInNewLine(Chunks(s, C)[k])
    decreases |s|
  {
    if s != [] {
      var e := ChunkEnd(s, C);
      var rest := s[e..];
      ChunksShape(rest, C);
      ChunksTail(s, C);
      if rest != [] {
        assert e < |s|;
        assert EndsInNewLine(s[..e]);
      }
    }
  }

  /** A chunk with no extension: an unterminated last line is not counted. */
  lemma ShortChunkRows(c: seq<byte>, C: nat)
    requires |c| <= C
    ensures CountedRows(c, C) == |LinesOf(c)| - (if c != [] && !EndsInNewLine(c) then 1 else 0)
  {
    LinesCount(c);
    assert c[..Min(C, |c|)] == c;
  }

  /** A chunk with an extension: the extension adds exactly one row. */
  lemma ExtendedChunkRows(c: seq<byte>, C: nat)
    requires |c| > C
    requires forall k :: C <= k < |c| - 1 ==> c[k] != NewLineSign
    ensures CountedRows(c, C) == |LinesOf(c)|
  {
    ExtendedCount(c, C);
    LinesCount(c);
  }

  lemma ExtendedCount(c: seq<byte>, C: nat)
    requires |c| > C
    requires forall k :: C <= k < |c| - 1 ==> c[k] != NewLineSign
    ensures CountedRows(c, C) == CountNewLines(c) + (if EndsInNewLine(c) then 0 else 1)
  {
    var main, ext := c[..C], c[C..];
    assert c == main + ext;
    CountNewLinesAppend(main, ext);
    assert forall k :: 0 <= k < |ext| - 1 ==> ext[k] != NewLineSign by {
      assert forall k :: 0 <= k < |ext| ==> ext[k] == c[C + k];
    }
    ExtensionCount(ext);
    assert EndsInNewLine(c) == EndsInNewLine(ext);
  }

  /**
   * The first chunk's row count equals its number of lines, except that an unterminated
   * chunk no longer than C (one with no extension) is counted one line short.
   */
  lemma FirstChunkRows(s: seq<byte>, C: nat)
    requires C > 0 && s != []
    ensures var c := s[..ChunkEnd(s, C)];
            CountedRows(c, C) == |LinesOf(c)| - (if |c| <= C && !EndsInNewLine(c) then 1 else 0)
  {
    var e := ChunkEnd(s, C);
    var c := s[..e];
    if |c| <= C {
      ShortChunkRows(c, C);
    } else {
      assert s[C - 1] != NewLineSign && e == ExtendEnd(s, C);
      assert forall k :: C <= k < |c| - 1 ==> c[k] == s[k];
      ExtendedChunkRows(c, C);
    }
  }

  lemma {:induction false} ExtensionCount(ext: seq<byte>)
    requires ext != []
    requires forall k :: 0 <= k < |ext| - 1 ==> ext[k] != NewLineSign
    ensures CountNewLines(ext) == if EndsInNewLine(ext) then 1 else 0
  {
    if |ext| > 1 {
      assert EndsInNewLine(ext) == EndsInNewLine(ext[1..]);
      ExtensionCount(ext[1..]);
    } else {
      assert ext[1..] == [];
    }
  }

  /** The row count of every chunk, against its number of lines. */
  lemma {:induction false} ChunkRows(s: seq<byte>, C: nat)
    requires C > 0
    ensures forall k :: 0 <= k < |Chunks(s, C)| ==>
              var c := Chunks(s, C)[k];
              CountedRows(c, C) == |LinesOf(c)| - (if |c| <= C && !EndsInNewLine(c) then 1 else 0)
    decreases |s|
  {
    if s != [] {
      var e := ChunkEnd(s, C);
      FirstChunkRows(s, C);
      ChunkRows(s[e..], C);
      var cs := Chunks(s, C);
      forall k | 0 < k < |cs| ensures cs[k] == Chunks(s[e..], C)[k - 1] { }
    }
  }

  /** The source's lines are the chunks' lines, in order: no line is split by a boundary. */
  lemma {:induction false} ChunkLines(cs: seq<seq<byte>>)
    requires forall k :: 0 <= k < |cs| - 1 ==> EndsInNewLine(cs[k])
    ensures LinesOf(Flatten(cs)) == FlatMap(cs, LinesOf)
  {
    if cs != [] {
      var tail := cs[1..];
      assert Flatten(cs) == cs[0] + Flatten(tail);
      assert FlatMap(cs, LinesOf) == LinesOf(cs[0]) + FlatMap(tail, LinesOf);
      if tail == [] {
        assert Flatten(cs) == cs[0];
      } else {
        assert forall k :: 0 <= k < |tail| - 1 ==> tail[k] == cs[k + 1];
        ChunkLines(tail);
        LinesAppend(cs[0], Flatten(tail));
      }
    }
  }
}
