/** Small sequence vocabulary shared by the splitter and the merger. */
module Seqs {

  /** The concatenation of a sequence of sequences, in order. */
  function Flatten<T>(ss: seq<seq<T>>): seq<T>
  {
    if ss == [] then [] else ss[0] + Flatten(ss[1..])
  }

  lemma {:induction false} FlattenAppend<T>(ss: seq<seq<T>>, s: seq<T>)
    ensures Flatten(ss + [s]) == Flatten(ss) + s
  {
    if ss == [] {
      assert [s][1..] == [];
    } else {
      assert (ss + [s])[1..] == ss[1..] + [s];
      FlattenAppend(ss[1..], s);
    }
  }

  /** The integers lo, lo + 1, ..., hi - 1 in ascending order (file numbers). */
  function Range(lo: nat, hi: nat): (r: seq<nat>)
    ensures |r| == if lo <= hi then hi - lo else 0
    ensures forall k :: 0 <= k < |r| ==> r[k] == lo + k
    decreases hi - lo
  {
    if lo >= hi then [] else [lo] + Range(lo + 1, hi)
  }

  /** Applies f to every element and concatenates the results, in order. */
  function FlatMap<T, U>(s: seq<T>, f: T -> seq<U>): seq<U>
  {
    if s == [] then [] else f(s[0]) + FlatMap(s[1..], f)
  }

  lemma {:induction false} FlatMapAppend<T, U>(a: seq<T>, b: seq<T>, f: T -> seq<U>)
    ensures FlatMap(a + b, f) == FlatMap(a, f) + FlatMap(b, f)
  {
    if a == [] {
      assert a + b == b;
    } else {
      assert (a + b)[0] == a[0];
      assert (a + b)[1..] == a[1..] + b;
      FlatMapAppend(a[1..], b, f);
    }
  }

  lemma {:induction false} FlatMapMember<T, U>(s: seq<T>, f: T -> seq<U>, y: U)
    requires y in FlatMap(s, f)
    ensures exists i :: 0 <= i < |s| && y in f(s[i])
  {
    if y !in f(s[0]) {
      FlatMapMember(s[1..], f, y);
      var i :| 0 <= i < |s[1..]| && y in f(s[1..][i]);
      assert y in f(s[i + 1]);
    }
  }

  lemma RangeSnoc(lo: nat, hi: nat)
    requires lo <= hi
    ensures Range(lo, hi + 1) == Range(lo, hi) + [hi]
  {
  }

  lemma RangeInit(lo: nat, hi: nat)
    requires lo < hi
    ensures Range(lo, hi)[..hi - lo - 1] == Range(lo, hi - 1)
  {
  }

  lemma RangeMembers(lo: nat, hi: nat)
    ensures forall k :: k in Range(lo, hi) <==> lo <= k < hi
  {
    forall k | lo <= k < hi ensures k in Range(lo, hi) {
      assert Range(lo, hi)[k - lo] == k;
    }
  }

  lemma RangeSlice(lo: nat, hi: nat, a: nat, b: nat)
    requires a <= b <= hi - lo
    ensures Range(lo, hi)[a..b] == Range(lo + a, lo + b)
  {
    assert |Range(lo, hi)[a..b]| == |Range(lo + a, lo + b)|;
  }

  /** No value occurs twice in s. */
  predicate Distinct<T(==)>(s: seq<T>)
  {
    forall k, l :: 0 <= k < l < |s| ==> s[k] != s[l]
  }

  lemma RangeDistinct(lo: nat, hi: nat)
    ensures Distinct(Range(lo, hi))
  {
  }

  lemma {:induction false} DistinctCounts<T>(s: seq<T>)
    requires Distinct(s)
    ensures forall x :: multiset(s)[x] <= 1
  {
    if s != [] {
      DistinctCounts(s[1..]);
      assert s == [s[0]] + s[1..];
      assert s[0] !in s[1..];
    }
  }

  lemma RemoveAt<T>(b: seq<T>, j: nat)
    requires j < |b|
    ensures multiset(b[..j] + b[j + 1..]) == multiset(b) - multiset{b[j]}
  {
    assert b == b[..j] + [b[j]] + b[j + 1..];
  }

  lemma FlatMapOne<T, U>(x: T, f: T -> seq<U>)
    ensures FlatMap([x], f) == f(x)
  {
    assert [x][1..] == [];
  }

  lemma FlatMapAt<T, U>(b: seq<T>, j: nat, f: T -> seq<U>)
    requires j < |b|
    ensures multiset(FlatMap(b, f)) == multiset(f(b[j])) + multiset(FlatMap(b[..j] + b[j + 1..], f))
  {
    var p, x, q := b[..j], b[j], b[j + 1..];
    assert b == (p + [x]) + q;
    FlatMapAppend(p + [x], q, f);
    FlatMapAppend(p, [x], f);
    FlatMapAppend(p, q, f);
    FlatMapOne(x, f);
    var fp, fq := FlatMap(p, f), FlatMap(q, f);
    assert FlatMap(b, f) == fp + f(x) + fq;
    assert FlatMap(p + q, f) == fp + fq;
  }

  /** Rearranging a sequence rearranges, but does not change, the multiset of any projection. */
  lemma {:induction false} PermutedFlatMap<T, U>(a: seq<T>, b: seq<T>, f: T -> seq<U>)
    requires multiset(a) == multiset(b)
    ensures multiset(FlatMap(a, f)) == multiset(FlatMap(b, f))
    decreases |a|
  {
    if a == [] {
      assert |b| == |multiset(b)| == 0;
    } else {
      var x := a[0];
      assert x in multiset(b);
      var j :| 0 <= j < |b| && b[j] == x;
      var b' := b[..j] + b[j + 1..];
      RemoveAt(b, j);
      assert a == [x] + a[1..];
      assert multiset(a[1..]) == multiset(b');
      PermutedFlatMap(a[1..], b', f);
      FlatMapAt(b, j, f);
    }
  }

  /** One more element of a prefix. */
  lemma TakeSnoc<T>(s: seq<T>, i: nat)
    requires i < |s|
    ensures s[..i + 1] == s[..i] + [s[i]]
  {
  }

  // ---------------------------------------------------------------- small equalities
  // Extensional facts about sequences and maps that the proofs elsewhere need spelled out
  // as separate steps; each states one equality the solver does not find on its own.

  lemma SliceOfSlice<T>(s: seq<T>, i: nat, j: nat)
    requires i <= j <= |s|
    ensures s[i..][..j - i] == s[i..j] && s[i..][j - i..] == s[j..]
  {
  }

  lemma PrefixStep<T>(written: seq<T>, all: seq<T>, rest: seq<T>, x: T, tail: seq<T>)
    requires written + rest == all && rest == [x] + tail
    ensures written + [x] + tail == all
  {
  }

  lemma ConsEqual<T>(a: seq<T>, b: seq<T>)
    requires a != [] && b != [] && a[0] == b[0] && a[1..] == b[1..]
    ensures a == b
  {
    assert a == [a[0]] + a[1..] && b == [b[0]] + b[1..];
  }

  lemma EmptyUnion<K, V>(m: map<K, V>)
    ensures map[] + m == m
  {
  }
}
