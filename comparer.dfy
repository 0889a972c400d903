/**
 * FileDataRowComparer: records ordered by ordinal text, then by number; a null record
 * (None) sorts below every record.
 */
module Comparer {
  import opened Results
  import opened Records

  /**
   * `string.Compare(a, b, StringComparison.Ordinal)`, reduced to its sign: the first
   * differing character decides, otherwise the shorter string is smaller.
   */
  function OrdinalCompare(a: string, b: string): (c: int)
    ensures -1 <= c <= 1
    ensures c == 0 <==> a == b
    ensures a <= b ==> c <= 0
  {
    if a == [] && b == [] then 0
    else if a == [] then -1
    else if b == [] then 1
    else if a[0] < b[0] then -1
    else if a[0] > b[0] then 1
    else
      assert a == [a[0]] + a[1..] && b == [b[0]] + b[1..];
      OrdinalCompare(a[1..], b[1..])
  }

  /** `long.CompareTo`. */
  function CompareLong(x: int, y: int): (c: int)
    ensures -1 <= c <= 1
    ensures c < 0 <==> x < y
    ensures c == 0 <==> x == y
  {
    if x < y then -1 else if x > y then 1 else 0
  }

  /** `FileDataRowComparer.Compare`; a reference is modelled by its fields. */
  function Compare(left: Option<Record>, right: Option<Record>): (c: int)
    ensures -1 <= c <= 1
    ensures c == 0 <==> left == right
    ensures left.Some? && right.None? ==> c == 1
    ensures left.None? && right.Some? ==> c == -1
  {
    if left == right then 0
    else if right.None? then 1
    else if left.None? then -1
    else
      var textComparison := OrdinalCompare(left.value.text, right.value.text);
      if textComparison != 0 then textComparison
      else CompareLong(left.value.number, right.value.number)
  }

  /** The order on non-null records used to state sortedness. */
  predicate Le(a: Record, b: Record)
  {
    Compare(Some(a), Some(b)) <= 0
  }

  lemma {:induction false} OrdinalAntisymmetric(a: string, b: string)
    ensures OrdinalCompare(a, b) == -OrdinalCompare(b, a)
  {
    if a != [] && b != [] && a[0] == b[0] {
      OrdinalAntisymmetric(a[1..], b[1..]);
    }
  }

  lemma {:induction false} OrdinalTransitive(a: string, b: string, c: string)
    requires OrdinalCompare(a, b) <= 0 && OrdinalCompare(b, c) <= 0
    ensures OrdinalCompare(a, c) <= 0
  {
    if a != [] && b != [] && c != [] && a[0] == b[0] == c[0] {
      OrdinalTransitive(a[1..], b[1..], c[1..]);
    }
  }

  /** The text decides unless the texts are equal; only then does the number. */
  lemma TextFirst(a: Record, b: Record)
    ensures a.text != b.text ==> Compare(Some(a), Some(b)) == OrdinalCompare(a.text, b.text)
    ensures a.text == b.text ==> Compare(Some(a), Some(b)) == CompareLong(a.number, b.number)
  {
  }

  /** Swapping the arguments negates the result. */
  lemma Antisymmetric(x: Option<Record>, y: Option<Record>)
    ensures Compare(x, y) == -Compare(y, x)
  {
    if x.Some? && y.Some? {
      OrdinalAntisymmetric(x.value.text, y.value.text);
    }
  }

  lemma Transitive(x: Option<Record>, y: Option<Record>, z: Option<Record>)
    requires Compare(x, y) <= 0 && Compare(y, z) <= 0
    ensures Compare(x, z) <= 0
  {
    if x.Some? && y.Some? && z.Some? && x != y && y != z {
      var a, b, c := x.value, y.value, z.value;
      OrdinalAntisymmetric(a.text, b.text);
      OrdinalAntisymmetric(b.text, c.text);
      if OrdinalCompare(a.text, b.text) <= 0 && OrdinalCompare(b.text, c.text) <= 0 {
        OrdinalTransitive(a.text, b.text, c.text);
      }
    }
  }

  /** Any two values are ordered one way or the other. */
  lemma Total(x: Option<Record>, y: Option<Record>)
    ensures Compare(x, y) <= 0 || Compare(y, x) <= 0
  {
    Antisymmetric(x, y);
  }
}
