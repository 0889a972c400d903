/**
 * FileDataRow: a record `Number. Text` and its line form.
 * `FromString` splits the line on EVERY occurrence of ". " (String.Split), parses the
 * first piece as a 64-bit integer and keeps the second piece as the text; `ToFileRow`
 * renders `{Number}. {Text}`.
 */
module Records {
  import opened Results

  const LongMin: int := -0x8000_0000_0000_0000
  const LongMax: int := 0x7FFF_FFFF_FFFF_FFFF

  /** The range of a C# `long`. */
  type Int64 = x: int | LongMin <= x <= LongMax

  datatype Record = Record(number: Int64, text: string)

  // ---------------------------------------------------------------- separator

  /** The separator ". " starts at position i of s. */
  predicate SepAt(s: string, i: int)
  {
    0 <= i && i + 1 < |s| && s[i] == '.' && s[i + 1] == ' '
  }

  predicate HasSep(s: string)
  {
    exists i :: 0 <= i < |s| && SepAt(s, i)
  }

  /**
   * String.Split(". "): the pieces between successive, non-overlapping occurrences of the
   * separator, scanning left to right.
   */
  function Split(s: string): (pieces: seq<string>)
    ensures |pieces| >= 1
    decreases |s|
  {
    if |s| < 2 then [s]
    else if s[0] == '.' && s[1] == ' ' then [[]] + Split(s[2..])
    else
      var rest := Split(s[1..]);
      [[s[0]] + rest[0]] + rest[1..]
  }

  /** Puts the pieces back together with the separator between consecutive pieces. */
  function Join(pieces: seq<string>): string
  {
    if pieces == [] then []
    else if |pieces| == 1 then pieces[0]
    else pieces[0] + ". " + Join(pieces[1..])
  }

  lemma {:induction false} SepAtShift(s: string, c: char, i: int)
    requires 0 <= i
    ensures SepAt([c] + s, i + 1) <==> SepAt(s, i)
  {
    if 0 <= i && i + 1 < |s| {
      assert ([c] + s)[i + 1] == s[i] && ([c] + s)[i + 2] == s[i + 1];
    }
  }

  /** Every piece is free of the separator, and joining the pieces gives back the line. */
  lemma SplitJoin(s: string)
    ensures Join(Split(s)) == s
    ensures forall k :: 0 <= k < |Split(s)| ==> !HasSep(Split(s)[k])
    ensures |Split(s)| == 1 <==> !HasSep(s)
  {
    JoinSplit(s);
    SplitPiecesFree(s);
    SplitOnce(s);
  }

  lemma {:induction false} JoinSplit(s: string)
    ensures Join(Split(s)) == s
    decreases |s|
  {
    if |s| < 2 {
    } else if s[0] == '.' && s[1] == ' ' {
      JoinSplit(s[2..]);
      JoinAfterSep(s, Split(s[2..]));
    } else {
      JoinSplit(s[1..]);
      JoinAfterChar(s, Split(s[1..]));
    }
  }

  lemma JoinAfterSep(s: string, rest: seq<string>)
    requires |s| >= 2 && s[0] == '.' && s[1] == ' '
    requires rest == Split(s[2..]) && Join(rest) == s[2..]
    ensures Join(Split(s)) == s
  {
    var pieces := [[]] + rest;
    assert Split(s) == pieces && pieces[1..] == rest;
    assert s == s[..2] + s[2..] && s[..2] == ". ";
  }

  lemma JoinAfterChar(s: string, rest: seq<string>)
    requires |s| >= 2 && !(s[0] == '.' && s[1] == ' ')
    requires rest == Split(s[1..]) && Join(rest) == s[1..]
    ensures Join(Split(s)) == s
  {
    var head := [s[0]] + rest[0];
    var pieces := [head] + rest[1..];
    assert Split(s) == pieces;
    assert s == [s[0]] + s[1..];
    if |rest| > 1 {
      assert pieces[1..] == rest[1..];
      calc {
        Join(pieces);
        head + ". " + Join(rest[1..]);
        [s[0]] + (rest[0] + ". " + Join(rest[1..]));
      }
    }
  }

  lemma {:induction false} SplitPiecesFree(s: string)
    ensures forall k :: 0 <= k < |Split(s)| ==> !HasSep(Split(s)[k])
    decreases |s|
  {
    var pieces := Split(s);
    if |s| < 2 {
      assert !HasSep(s);
    } else if s[0] == '.' && s[1] == ' ' {
      var tail := s[2..];
      SplitPiecesFree(tail);
      assert pieces == [[]] + Split(tail);
      forall k | 0 <= k < |pieces| ensures !HasSep(pieces[k]) {
        if k > 0 { assert pieces[k] == Split(tail)[k - 1]; }
      }
    } else {
      var tail := s[1..];
      SplitPiecesFree(tail);
      JoinSplit(tail);
      var rest := Split(tail);
      var head := [s[0]] + rest[0];
      assert pieces == [head] + rest[1..];
      // the first piece of the tail is a prefix of the tail
      assert rest[0] <= tail by { JoinHeadPrefix(rest); }
      forall i | 0 <= i < |head| ensures !SepAt(head, i) {
        if i == 0 {
          if |head| > 1 { assert head[1] == tail[0] == s[1]; }
        } else {
          SepAtShift(rest[0], s[0], i - 1);
        }
      }
      forall k | 0 <= k < |pieces| ensures !HasSep(pieces[k]) {
        if k > 0 { assert pieces[k] == rest[k]; }
      }
    }
  }

  lemma {:induction false} SplitOnce(s: string)
    ensures |Split(s)| == 1 <==> !HasSep(s)
    decreases |s|
  {
    if |s| < 2 {
      assert !HasSep(s);
    } else if s[0] == '.' && s[1] == ' ' {
      assert SepAt(s, 0);
    } else {
      var tail := s[1..];
      SplitOnce(tail);
      assert s == [s[0]] + tail;
      if HasSep(tail) {
        var i :| 0 <= i < |tail| && SepAt(tail, i);
        SepAtShift(tail, s[0], i);
      } else {
        forall i | 0 <= i < |s| ensures !SepAt(s, i) {
          if i > 0 { SepAtShift(tail, s[0], i - 1); }
        }
      }
    }
  }

  lemma {:induction false} JoinHeadPrefix(pieces: seq<string>)
    requires |pieces| >= 1
    ensures pieces[0] <= Join(pieces)
  {
  }

  /** A separator-free first part is split off as the first piece. */
  lemma {:induction false} SplitAfterFirst(a: string, b: string)
    requires !HasSep(a)
    ensures Split(a + ". " + b) == [a] + Split(b)
    decreases |a|
  {
    var s := a + ". " + b;
    if a == [] {
      assert s == ". " + b;
      assert s[2..] == b;
    } else {
      assert s[1..] == a[1..] + ". " + b;
      assert a == [a[0]] + a[1..];
      forall i | 0 <= i < |a[1..]| ensures !SepAt(a[1..], i) {
        SepAtShift(a[1..], a[0], i);
      }
      SplitAfterFirst(a[1..], b);
      if |a| == 1 {
        assert !(s[0] == '.' && s[1] == ' ') by { assert s[1] == '.'; }
      } else {
        assert !(s[0] == '.' && s[1] == ' ') by { assert !SepAt(a, 0); }
      }
      assert [a[0]] + a[1..] == a;
    }
  }

  // ---------------------------------------------------------------- decimal numbers

  predicate IsDigit(c: char) { '0' <= c <= '9' }

  predicate AllDigits(d: string) { forall k :: 0 <= k < |d| ==> IsDigit(d[k]) }

  function DigitValue(c: char): nat
    requires IsDigit(c)
  {
    (c as int) - ('0' as int)
  }

  function DigitChar(n: nat): (c: char)
    requires n < 10
    ensures IsDigit(c) && DigitValue(c) == n
  {
    (('0' as int) + n) as char
  }

  /** The value of a string of decimal digits, most significant first. */
  function DigitsValue(d: string): nat
    requires AllDigits(d)
  {
    if d == [] then 0 else 10 * DigitsValue(d[..|d| - 1]) + DigitValue(d[|d| - 1])
  }

  /** The shortest decimal digit string of n. */
  function NatDigits(n: nat): (d: string)
    ensures |d| >= 1 && AllDigits(d)
  {
    if n < 10 then [DigitChar(n)] else NatDigits(n / 10) + [DigitChar(n % 10)]
  }

  /** `long.ToString()`: an optional minus sign and the digits of the magnitude. */
  function FormatLong(n: int): (p: string)
    ensures |p| >= 1 && (p[0] == '-' <==> n < 0)
    ensures forall k :: 0 <= k < |p| ==> p[k] == '-' || IsDigit(p[k])
  {
    if n < 0 then "-" + NatDigits(-n) else NatDigits(n)
  }

  /**
   * `long.Parse`, restricted to an optional '-' followed by decimal digits; anything
   * else, and any value outside the range of a long, is rejected.
   */
  function ParseLong(p: string): (r: Option<Int64>)
    ensures r.Some? ==> |p| >= 1 && (p[0] == '-' || IsDigit(p[0]))
  {
    if |p| >= 2 && p[0] == '-' && AllDigits(p[1..]) then
      var v: int := DigitsValue(p[1..]);
      (if -v >= LongMin then Some(-v) else None)
    else if |p| >= 1 && AllDigits(p) then
      (if DigitsValue(p) <= LongMax then Some(DigitsValue(p)) else None)
    else None
  }

  lemma {:induction false} DigitsRoundTrip(n: nat)
    ensures DigitsValue(NatDigits(n)) == n
  {
    if n >= 10 {
      var d := NatDigits(n);
      assert d[..|d| - 1] == NatDigits(n / 10);
      DigitsRoundTrip(n / 10);
    }
  }

  /** Parsing the rendering of a long gives the long back. */
  lemma FormatParseLong(n: Int64)
    ensures ParseLong(FormatLong(n)) == Some(n)
  {
    var p := FormatLong(n);
    if n < 0 {
      var m: nat := -(n as int);
      assert p[1..] == NatDigits(m);
      DigitsRoundTrip(m);
      assert p[0] == '-' && AllDigits(p[1..]) && |p| >= 2;
      var v: int := DigitsValue(p[1..]);
      assert v == m;
    } else {
      DigitsRoundTrip(n);
      assert p[0] != '-' by { assert IsDigit(p[0]); }
      assert DigitsValue(p) == n;
    }
  }

  lemma FormatLongNoSep(n: int)
    ensures !HasSep(FormatLong(n))
    ensures forall k :: 0 <= k < |FormatLong(n)| ==> FormatLong(n)[k] != '\n'
  {
    var p := FormatLong(n);
    var d := if n < 0 then NatDigits(-n) else NatDigits(n);
    assert forall k :: 0 <= k < |p| ==> p[k] == '-' || IsDigit(p[k]) by {
      if n < 0 { assert forall k :: 1 <= k < |p| ==> p[k] == d[k - 1]; }
    }
    forall i | 0 <= i < |p| ensures !SepAt(p, i) {
      if i + 1 < |p| { assert p[i] == '-' || IsDigit(p[i]); }
    }
  }

  // ---------------------------------------------------------------- the codec

  /** `FileDataRow.ToFileRow`: "{Number}. {Text}". */
  function ToFileRow(r: Record): (line: string)
    ensures !HasSep(r.text) ==> Split(line) == [FormatLong(r.number), r.text]
  {
    FormatLongNoSep(r.number);
    SplitAfterFirst(FormatLong(r.number), r.text);
    SplitJoin(r.text);
    FormatLong(r.number) + ". " + r.text
  }

  /**
   * `FileDataRow.FromString`. The number is parsed before the second piece is looked up,
   * so a line with neither a number nor a separator reports the number.
   */
  function FromString(s: string): (r: Result<Record>)
    ensures r == Err(NumberFormat) <==> ParseLong(Split(s)[0]).None?
    ensures r == Err(MissingSeparator) <==> ParseLong(Split(s)[0]).Some? && !HasSep(s)
    ensures r.Err? ==> r.error in {NumberFormat, MissingSeparator}
    ensures r.Ok? ==> !HasSep(r.value.text)
    ensures r.Ok? ==> Split(s)[0] + ". " + r.value.text <= s
    ensures r.Ok? ==> |Split(s)| >= 2 && ParseLong(Split(s)[0]).Some?
    ensures r.Ok? ==> r.value == Record(ParseLong(Split(s)[0]).value, Split(s)[1])
  {
    SplitJoin(s);
    var pieces := Split(s);
    match ParseLong(pieces[0])
    case None => Err(NumberFormat)
    case Some(n) =>
      if |pieces| < 2 then Err(MissingSeparator)
      else
        assert Join(pieces) == pieces[0] + ". " + Join(pieces[1..]);
        JoinHeadPrefix(pieces[1..]);
        Ok(Record(n, pieces[1]))
  }

  // ---------------------------------------------------------------- round trips

  /** Formatting then parsing gives the record back when its text holds no ". ". */
  lemma RoundTrip(r: Record)
    requires !HasSep(r.text)
    ensures FromString(ToFileRow(r)) == Ok(r)
  {
    FormatLongNoSep(r.number);
    SplitAfterFirst(FormatLong(r.number), r.text);
    SplitJoin(r.text);
    FormatParseLong(r.number);
  }

  /** A text containing ". " loses everything from its first separator on. */
  lemma TextWithSepIsTruncated(n: Int64, a: string, b: string)
    requires !HasSep(a)
    ensures FromString(ToFileRow(Record(n, a + ". " + b))) == Ok(Record(n, a))
  {
    FormatLongNoSep(n);
    assert ToFileRow(Record(n, a + ". " + b)) == FormatLong(n) + ". " + (a + ". " + b);
    SplitAfterFirst(FormatLong(n), a + ". " + b);
    SplitAfterFirst(a, b);
    FormatParseLong(n);
  }

  /**
   * Parsing then formatting gives the line back when it holds exactly one ". " and the
   * part before it is the canonical rendering of a long.
   */
  lemma ReverseRoundTrip(s: string)
    requires |Split(s)| == 2
    requires ParseLong(Split(s)[0]).Some?
    requires FormatLong(ParseLong(Split(s)[0]).value) == Split(s)[0]
    ensures FromString(s).Ok? && ToFileRow(FromString(s).value) == s
  {
    SplitJoin(s);
    var pieces := Split(s);
    assert Join(pieces[1..]) == pieces[1];
  }

  /**
   * A record read from a line is written back as one line that reads back as the same
   * record: this is why a sorted run can be modelled by its records.
   */
  lemma ParsedLineRoundTrip(line: string)
    requires forall k :: 0 <= k < |line| ==> line[k] != '\n'
    requires FromString(line).Ok?
    ensures FromString(ToFileRow(FromString(line).value)) == FromString(line)
    ensures forall k :: 0 <= k < |ToFileRow(FromString(line).value)| ==> ToFileRow(FromString(line).value)[k] != '\n'
  {
    var r := FromString(line).value;
    RoundTrip(r);
    FormatLongNoSep(r.number);
    var prefix := Split(line)[0] + ". ";
    assert prefix + r.text <= line;
    assert forall k :: 0 <= k < |r.text| ==> r.text[k] == line[|prefix| + k];
    var out := ToFileRow(r);
    forall k | 0 <= k < |out| ensures out[k] != '\n' {
      var f := FormatLong(r.number);
      if k < |f| { assert out[k] == f[k]; }
      else if k < |f| + 2 { assert out[k] == ". "[k - |f|]; }
      else { assert out[k] == r.text[k - |f| - 2]; }
    }
  }
}
