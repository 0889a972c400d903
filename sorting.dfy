/**
 * The result of `Array.Sort` and `List.Sort` with the record comparer, specified by an
 * insertion sort: a permutation of the input in non-decreasing comparer order. Because
 * the comparer returns 0 only for equal values, that result is unique, so the
 * (unstable) algorithm the library uses does not matter.
 */
module Sorting {
  import opened Results
  import opened Seqs
  import opened Records
  import opened Comparer

  /** Non-decreasing under the comparer, looking at each element through `key`. */
  predicate SortedBy<T>(s: seq<T>, key: T -> Option<Record>)
  {
    forall i, j :: 0 <= i < j < |s| ==> Compare(key(s[i]), key(s[j])) <= 0
  }

  function Insert<T>(x: T, s: seq<T>, key: T -> Option<Record>): (r: seq<T>)
    ensures |r| == |s| + 1
  {
    if s == [] || Compare(key(x), key(s[0])) <= 0 then [x] + s
    else [s[0]] + Insert(x, s[1..], key)
  }

  function SortBy<T>(s: seq<T>, key: T -> Option<Record>): (r: seq<T>)
    ensures |r| == |s|
  {
    if s == [] then [] else Insert(s[0], SortBy(s[1..], key), key)
  }

  lemma {:induction false} InsertFlatMap<T, U>(x: T, s: seq<T>, key: T -> Option<Record>, f: T -> seq<U>)
    ensures multiset(FlatMap(Insert(x, s, key), f)) == multiset(f(x)) + multiset(FlatMap(s, f))
  {
    if s == [] || Compare(key(x), key(s[0])) <= 0 {
      assert ([x] + s)[1..] == s;
    } else {
      var r := Insert(x, s[1..], key);
      assert ([s[0]] + r)[1..] == r;
      InsertFlatMap(x, s[1..], key, f);
    }
  }

  /** Sorting keeps every projection of the elements: in particular the multiset. */
  lemma {:induction false} SortByFlatMap<T, U>(s: seq<T>, key: T -> Option<Record>, f: T -> seq<U>)
    ensures multiset(FlatMap(SortBy(s, key), f)) == multiset(FlatMap(s, f))
  {
    if s != [] {
      SortByFlatMap(s[1..], key, f);
      InsertFlatMap(s[0], SortBy(s[1..], key), key, f);
    }
  }

  lemma {:induction false} InsertPermutes<T>(x: T, s: seq<T>, key: T -> Option<Record>)
    ensures multiset(Insert(x, s, key)) == multiset{x} + multiset(s)
  {
    if s != [] && Compare(key(x), key(s[0])) > 0 {
      InsertPermutes(x, s[1..], key);
      assert s == [s[0]] + s[1..];
    }
  }

  lemma {:induction false} SortByPermutes<T>(s: seq<T>, key: T -> Option<Record>)
    ensures multiset(SortBy(s, key)) == multiset(s)
  {
    if s != [] {
      SortByPermutes(s[1..], key);
      InsertPermutes(s[0], SortBy(s[1..], key), key);
      assert s == [s[0]] + s[1..];
    }
  }

  lemma {:induction false} InsertSorted<T>(x: T, s: seq<T>, key: T -> Option<Record>)
    requires SortedBy(s, key)
    ensures SortedBy(Insert(x, s, key), key)
  {
    var r := Insert(x, s, key);
    if s == [] {
    } else if Compare(key(x), key(s[0])) <= 0 {
      forall i, j | 0 <= i < j < |r| ensures Compare(key(r[i]), key(r[j])) <= 0 {
        if i == 0 {
          if j > 1 { Transitive(key(x), key(s[0]), key(s[j - 1])); }
        }
      }
    } else {
      var t := Insert(x, s[1..], key);
      InsertSorted(x, s[1..], key);
      InsertPermutes(x, s[1..], key);
      Antisymmetric(key(x), key(s[0]));
      forall j | 0 <= j < |t| ensures Compare(key(s[0]), key(t[j])) <= 0 {
        assert t[j] in multiset{x} + multiset(s[1..]);
        if t[j] != x {
          assert t[j] in s[1..];
          var k :| 0 <= k < |s[1..]| && s[1..][k] == t[j];
          assert s[k + 1] == t[j];
        }
      }
      assert r == [s[0]] + t;
    }
  }

  lemma {:induction false} SortBySorted<T>(s: seq<T>, key: T -> Option<Record>)
    ensures SortedBy(SortBy(s, key), key)
  {
    if s != [] {
      SortBySorted(s[1..], key);
      InsertSorted(s[0], SortBy(s[1..], key), key);
    }
  }

  // ---------------------------------------------------------------- records

  function RecordKey(r: Record): Option<Record> { Some(r) }

  predicate Sorted(s: seq<Record>)
  {
    SortedBy(s, RecordKey)
  }

  /** The sorted form of a sequence of records: sorted, and a permutation of it. */
  function SortRecords(s: seq<Record>): (r: seq<Record>)
    ensures Sorted(r)
    ensures multiset(r) == multiset(s)
  {
    SortBySorted(s, RecordKey);
    SortByPermutes(s, RecordKey);
    SortBy(s, RecordKey)
  }

  lemma SortedHeadLe(a: seq<Record>, x: Record)
    requires Sorted(a) && x in a
    ensures Le(a[0], x)
  {
    var i :| 0 <= i < |a| && a[i] == x;
    if i > 0 { assert Le(a[0], a[i]); }
  }

  lemma SortedTail(a: seq<Record>)
    requires Sorted(a) && a != []
    ensures Sorted(a[1..])
  {
    forall i, j | 0 <= i < j < |a[1..]| ensures Le(a[1..][i], a[1..][j]) {
      assert a[1..][i] == a[i + 1] && a[1..][j] == a[j + 1];
    }
  }

  lemma SortedHeadsEqual(a: seq<Record>, b: seq<Record>)
    requires Sorted(a) && Sorted(b) && a != [] && b != []
    requires multiset(a) == multiset(b)
    ensures a[0] == b[0]
  {
    assert a[0] in multiset(b);
    assert b[0] in multiset(a);
    SortedHeadLe(b, a[0]);
    SortedHeadLe(a, b[0]);
    Antisymmetric(Some(a[0]), Some(b[0]));
  }

  lemma MultisetTail(a: seq<Record>)
    requires a != []
    ensures multiset(a[1..]) == multiset(a) - multiset{a[0]}
  {
    assert a == [a[0]] + a[1..];
  }

  /** Two sorted permutations of the same records are equal. */
  lemma {:induction false} SortedUnique(a: seq<Record>, b: seq<Record>)
    requires Sorted(a) && Sorted(b)
    requires multiset(a) == multiset(b)
    ensures a == b
  {
    if a == [] {
      assert |b| == |multiset(b)| == 0;
    } else {
      assert b != [] by { assert |b| == |multiset(b)| == |multiset(a)| == |a|; }
      SortedHeadsEqual(a, b);
      MultisetTail(a);
      MultisetTail(b);
      SortedTail(a);
      SortedTail(b);
      SortedUnique(a[1..], b[1..]);
      ConsEqual(a, b);
    }
  }

  /** Whatever sorts a permutation of the records yields exactly SortRecords. */
  lemma SortedPermutationIsSortRecords(s: seq<Record>, r: seq<Record>)
    requires Sorted(r) && multiset(r) == multiset(s)
    ensures r == SortRecords(s)
  {
    SortedUnique(r, SortRecords(s));
  }

  // ---------------------------------------------------------------- null slots

  function SlotKey(x: Option<Record>): Option<Record> { x }

  function PresentOne(x: Option<Record>): seq<Record>
  {
    if x.Some? then [x.value] else []
  }

  /** The non-null slots, in order (`Where(x => x != null)`). */
  function Present(s: seq<Option<Record>>): seq<Record>
  {
    FlatMap(s, PresentOne)
  }

  /** Sorting the slots with the null-aware comparer and dropping the nulls sorts the records. */
  lemma {:induction false} PresentOfSorted(s: seq<Option<Record>>)
    requires SortedBy(s, SlotKey)
    ensures Sorted(Present(s))
  {
    if s != [] {
      var tail := s[1..];
      PresentOfSorted(tail);
      if s[0].Some? {
        HeadBelowPresent(s);
        assert Present(s) == [s[0].value] + Present(tail);
      }
    }
  }

  /** A present first slot of sorted slots is at most every record present after it. */
  lemma HeadBelowPresent(s: seq<Option<Record>>)
    requires s != [] && s[0].Some? && SortedBy(s, SlotKey)
    ensures forall j :: 0 <= j < |Present(s[1..])| ==> Le(s[0].value, Present(s[1..])[j])
  {
    var tail, p := s[1..], Present(s[1..]);
    forall j | 0 <= j < |p| ensures Le(s[0].value, p[j]) {
      FlatMapMember(tail, PresentOne, p[j]);
      var i :| 0 <= i < |tail| && p[j] in PresentOne(tail[i]);
      assert tail[i] == Some(p[j]);
      assert s[i + 1] == tail[i];
    }
  }

  /** Slots that are all null hold no record. */
  lemma {:induction false} PresentAllNull(s: seq<Option<Record>>)
    requires forall k :: 0 <= k < |s| ==> s[k].None?
    ensures Present(s) == []
  {
    if s != [] {
      PresentAllNull(s[1..]);
    }
  }

  /** Slots holding vals in order, followed only by nulls, hold exactly vals. */
  lemma {:induction false} PresentFilled(s: seq<Option<Record>>, vals: seq<Record>)
    requires |vals| <= |s|
    requires forall k :: 0 <= k < |vals| ==> s[k] == Some(vals[k])
    requires forall k :: |vals| <= k < |s| ==> s[k].None?
    ensures Present(s) == vals
  {
    if s != [] {
      if vals == [] {
        PresentAllNull(s);
      } else {
        PresentFilled(s[1..], vals[1..]);
        assert vals == [vals[0]] + vals[1..];
      }
    }
  }

  /** Dropping the nulls of a prefix one slot longer. */
  lemma PresentSnoc(s: seq<Option<Record>>, i: nat)
    requires i < |s|
    ensures Present(s[..i + 1]) == Present(s[..i]) + PresentOne(s[i])
  {
    assert s[..i + 1] == s[..i] + [s[i]];
    FlatMapAppend(s[..i], [s[i]], PresentOne);
    assert FlatMap([s[i]], PresentOne) == PresentOne(s[i]) + FlatMap([s[i]][1..], PresentOne);
  }
}
