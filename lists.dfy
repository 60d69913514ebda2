/**
 * The list derivations the screens are built from: `Array.prototype.filter`
 * as a function on sequences, the order-preserving sub-sequence relation it
 * produces, and the facts about it that the three screens rely on.
 */
module Lists {

  /** `s.filter(f)`: the elements of `s` that satisfy `f`, in their order. */
  function Filter<T>(s: seq<T>, f: T -> bool): (r: seq<T>)
    ensures |r| <= |s|
    ensures forall i :: 0 <= i < |r| ==> r[i] in s && f(r[i])
    ensures forall i :: 0 <= i < |s| ==> (s[i] in r <==> f(s[i]))
  {
    if s == [] then []
    else if f(s[0]) then [s[0]] + Filter(s[1..], f)
    else Filter(s[1..], f)
  }

  /** `a` is `b` with some elements deleted and the rest kept in order. */
  ghost predicate IsSubsequence<T>(a: seq<T>, b: seq<T>)
    decreases |b|
  {
    if a == [] then true
    else if b == [] then false
    else (a[0] == b[0] && IsSubsequence(a[1..], b[1..])) || IsSubsequence(a, b[1..])
  }

  /** The positions of `s` whose element satisfies `f`. */
  ghost function IndicesWhere<T>(s: seq<T>, f: T -> bool): set<int>
  {
    set i | 0 <= i < |s| && f(s[i])
  }

  lemma {:induction false} FilterIsSubsequence<T>(s: seq<T>, f: T -> bool)
    ensures IsSubsequence(Filter(s, f), s)
  {
    if s != [] {
      FilterIsSubsequence(s[1..], f);
      var r := Filter(s, f);
      if f(s[0]) {
        assert r[0] == s[0] && r[1..] == Filter(s[1..], f);
      } else if r != [] {
        assert r == Filter(s[1..], f);
      }
    }
  }

  /** Each value keeps all of its occurrences when it satisfies `f`, and loses all of them otherwise. */
  lemma {:induction false} FilterMultiplicity<T>(s: seq<T>, f: T -> bool, x: T)
    ensures multiset(Filter(s, f))[x] == if f(x) then multiset(s)[x] else 0
  {
    if s != [] {
      FilterMultiplicity(s[1..], f, x);
      assert s == [s[0]] + s[1..];
      assert multiset(s) == multiset([s[0]]) + multiset(s[1..]);
      if f(s[0]) {
        assert multiset(Filter(s, f)) == multiset([s[0]]) + multiset(Filter(s[1..], f));
      }
    }
  }

  /** Filtering with a predicate that every element satisfies gives the input back. */
  lemma {:induction false} FilterKeepsAll<T>(s: seq<T>, f: T -> bool)
    requires forall i :: 0 <= i < |s| ==> f(s[i])
    ensures Filter(s, f) == s
  {
    if s != [] {
      FilterKeepsAll(s[1..], f);
      assert [s[0]] + s[1..] == s;
    }
  }

  lemma {:induction false} FilterConcat<T>(a: seq<T>, b: seq<T>, f: T -> bool)
    ensures Filter(a + b, f) == Filter(a, f) + Filter(b, f)
  {
    if a == [] {
      assert a + b == b;
    } else {
      var ab := a + b;
      assert ab[0] == a[0] && ab[1..] == a[1..] + b;
      var head := if f(a[0]) then [a[0]] else [];
      assert Filter(ab, f) == head + Filter(a[1..] + b, f);
      assert Filter(a, f) == head + Filter(a[1..], f);
      FilterConcat(a[1..], b, f);
    }
  }

  /** Appending one element adds its position exactly when it passes. */
  lemma IndicesWhereSnoc<T>(p: seq<T>, x: T, f: T -> bool)
    ensures IndicesWhere(p + [x], f) == IndicesWhere(p, f) + (if f(x) then {|p|} else {})
  {
  }

  /** The length of a filter is the number of positions whose element passes. */
  lemma {:induction false} FilterLengthCountsIndices<T>(s: seq<T>, f: T -> bool)
    ensures |Filter(s, f)| == |IndicesWhere(s, f)|
    decreases |s|
  {
    if s == [] {
      assert IndicesWhere(s, f) == {};
    } else {
      var p, x := s[..|s| - 1], s[|s| - 1];
      assert s == p + [x];
      FilterLengthCountsIndices(p, f);
      FilterConcat(p, [x], f);
      IndicesWhereSnoc(p, x, f);
      assert |p| !in IndicesWhere(p, f);
      assert |Filter([x], f)| == if f(x) then 1 else 0;
    }
  }
}
