/**
 * Files as bytes and the lines a StreamReader reads from them. Lines end at the
 * NewLineSign byte; a final line without one still counts, and a trailing NewLineSign
 * does not start an empty line.
 */
module Lines {
  import opened Results
  import opened Records

  type byte = x: int | 0 <= x < 256

  /** `IAltionConfig.NewLineSign`, '\n'. */
  const NewLineSign: byte := 10

  /** The number of NewLineSign bytes in s. */
  function CountNewLines(s: seq<byte>): nat
  {
    if s == [] then 0 else (if s[0] == NewLineSign then 1 else 0) + CountNewLines(s[1..])
  }

  predicate EndsInNewLine(s: seq<byte>)
  {
    s != [] && s[|s| - 1] == NewLineSign
  }

  /** The lines `StreamReader.ReadLine` returns until `EndOfStream`, without their terminators. */
  function LinesOf(s: seq<byte>): (lines: seq<seq<byte>>)
    ensures lines == [] <==> s == []
  {
    if s == [] then []
    else if s[0] == NewLineSign then [[]] + LinesOf(s[1..])
    else
      var rest := LinesOf(s[1..]);
      if rest == [] then [[s[0]]] else [[s[0]] + rest[0]] + rest[1..]
  }

  lemma {:induction false} CountNewLinesAppend(a: seq<byte>, b: seq<byte>)
    ensures CountNewLines(a + b) == CountNewLines(a) + CountNewLines(b)
  {
    if a == [] {
      assert a + b == b;
    } else {
      assert (a + b)[1..] == a[1..] + b;
      CountNewLinesAppend(a[1..], b);
    }
  }

  /** One line per NewLineSign, plus one for an unterminated last line. */
  lemma {:induction false} LinesCount(s: seq<byte>)
    ensures |LinesOf(s)| == CountNewLines(s) + (if s != [] && !EndsInNewLine(s) then 1 else 0)
  {
    if s != [] {
      LinesCount(s[1..]);
      if s[0] != NewLineSign && s[1..] != [] {
        assert EndsInNewLine(s) == EndsInNewLine(s[1..]);
      }
    }
  }

  /** No line contains the NewLineSign byte. */
  lemma {:induction false} LinesAreClean(s: seq<byte>)
    ensures forall i, k :: 0 <= i < |LinesOf(s)| && 0 <= k < |LinesOf(s)[i]| ==> LinesOf(s)[i][k] != NewLineSign
  {
    if s != [] {
      LinesAreClean(s[1..]);
      var rest := LinesOf(s[1..]);
      if s[0] != NewLineSign && rest != [] {
        var ls := LinesOf(s);
        forall i, k | 0 <= i < |ls| && 0 <= k < |ls[i]| ensures ls[i][k] != NewLineSign {
          if i == 0 {
            if k > 0 { assert ls[0][k] == rest[0][k - 1]; }
          } else {
            assert ls[i] == rest[i];
          }
        }
      }
    }
  }

  /** A boundary just after a NewLineSign splits no line. */
  lemma {:induction false} LinesAppend(a: seq<byte>, b: seq<byte>)
    requires a == [] || EndsInNewLine(a)
    ensures LinesOf(a + b) == LinesOf(a) + LinesOf(b)
  {
    if a == [] {
      assert a + b == b;
    } else {
      var t := a[1..];
      assert (a + b)[1..] == t + b;
      assert t == [] || EndsInNewLine(t) by {
        if t != [] { assert t[|t| - 1] == a[|a| - 1]; }
      }
      LinesAppend(t, b);
      if a[0] != NewLineSign {
        assert t != [];
        var lt, rest := LinesOf(t), LinesOf(t + b);
        assert rest[0] == lt[0] && rest[1..] == lt[1..] + LinesOf(b);
        assert LinesOf(a + b) == [[a[0]] + rest[0]] + rest[1..];
      }
    }
  }

  /** Each byte is read as the character with that code (no multi-byte decoding). */
  function Decode(line: seq<byte>): (s: string)
    ensures |s| == |line|
    ensures forall k :: 0 <= k < |line| ==> s[k] as int == line[k]
  {
    seq(|line|, k requires 0 <= k < |line| => line[k] as char)
  }

  /**
   * `FileDataRow.FromString` applied to every line in order, stopping at the first line
   * that does not parse.
   */
  function ParseAll(lines: seq<seq<byte>>): (r: Result<seq<Record>>)
    ensures r.Ok? ==> |r.value| == |lines|
  {
    if lines == [] then Ok([])
    else
      match FromString(Decode(lines[0]))
      case Err(e) => Err(e)
      case Ok(row) =>
        match ParseAll(lines[1..])
        case Err(e) => Err(e)
        case Ok(rows) => Ok([row] + rows)
  }

  /**
   * The lines parse exactly when each of them does; the rows are then the lines' rows in
   * order, and otherwise the error is that of a line that does not parse.
   */
  lemma {:induction false} ParseAllMeaning(lines: seq<seq<byte>>)
    ensures ParseAll(lines).Ok? <==> forall k :: 0 <= k < |lines| ==> FromString(Decode(lines[k])).Ok?
    ensures ParseAll(lines).Ok? ==>
              forall k :: 0 <= k < |lines| ==> ParseAll(lines).value[k] == FromString(Decode(lines[k])).value
    ensures ParseAll(lines).Err? ==>
              exists k :: 0 <= k < |lines| && FromString(Decode(lines[k])) == Err(ParseAll(lines).error)
  {
    ParseAllOk(lines);
    ParseAllValues(lines);
    ParseAllError(lines);
  }

  lemma {:induction false} ParseAllOk(lines: seq<seq<byte>>)
    ensures ParseAll(lines).Ok? <==> forall k :: 0 <= k < |lines| ==> FromString(Decode(lines[k])).Ok?
  {
    if lines != [] {
      ParseAllOk(lines[1..]);
      assert forall k :: 1 <= k < |lines| ==> lines[k] == lines[1..][k - 1];
    }
  }

  lemma {:induction false} ParseAllValues(lines: seq<seq<byte>>)
    ensures ParseAll(lines).Ok? ==>
              forall k :: 0 <= k < |lines| ==> FromString(Decode(lines[k])) == Ok(ParseAll(lines).value[k])
  {
    if lines != [] && ParseAll(lines).Ok? {
      ParseAllValues(lines[1..]);
      var rows := ParseAll(lines).value;
      assert rows[1..] == ParseAll(lines[1..]).value;
      forall k | 0 <= k < |lines| ensures FromString(Decode(lines[k])) == Ok(rows[k]) {
        if k > 0 {
          assert rows[k] == rows[1..][k - 1] && lines[k] == lines[1..][k - 1];
        }
      }
    }
  }

  lemma {:induction false} ParseAllError(lines: seq<seq<byte>>)
    ensures ParseAll(lines).Err? ==>
              exists k :: 0 <= k < |lines| && FromString(Decode(lines[k])) == Err(ParseAll(lines).error)
  {
    if lines != [] && ParseAll(lines).Err? {
      if FromString(Decode(lines[0])).Ok? {
        ParseAllError(lines[1..]);
        var j :| 0 <= j < |lines[1..]| && FromString(Decode(lines[1..][j])) == Err(ParseAll(lines).error);
        assert lines[1..][j] == lines[j + 1];
      }
    }
  }

  /** A line that does not parse makes the whole chunk fail. */
  lemma ParseAllStops(lines: seq<seq<byte>>, k: nat)
    requires k < |lines| && FromString(Decode(lines[k])).Err?
    ensures ParseAll(lines).Err?
  {
    ParseAllMeaning(lines);
  }

  lemma {:induction false} ParseAllAppend(a: seq<seq<byte>>, b: seq<seq<byte>>)
    ensures ParseAll(a + b).Ok? <==> ParseAll(a).Ok? && ParseAll(b).Ok?
    ensures ParseAll(a + b).Ok? ==> ParseAll(a + b).value == ParseAll(a).value + ParseAll(b).value
  {
    if a == [] {
      assert a + b == b;
    } else {
      assert (a + b)[0] == a[0];
      assert (a + b)[1..] == a[1..] + b;
      ParseAllAppend(a[1..], b);
    }
  }

  /** Parsing one more line: the rows so far plus that line's row. */
  lemma ParseAllSnoc(a: seq<seq<byte>>, x: seq<byte>, rows: seq<Record>, row: Record)
    requires ParseAll(a) == Ok(rows) && FromString(Decode(x)) == Ok(row)
    ensures ParseAll(a + [x]) == Ok(rows + [row])
  {
    ParseAllAppend(a, [x]);
    var one := [x];
    assert one[0] == x && one[1..] == [];
    assert ParseAll(one[1..]) == Ok([]);
    assert [row] + [] == [row];
    assert ParseAll(one) == Ok([row]);
  }
}
