/** Sequence operations of JavaScript arrays: `filter`, `slice`, `flat` and `new Set(...)`. */
module Seqs {

  /** `s.filter(p)`. */
  function Filter<T>(s: seq<T>, p: T -> bool): (r: seq<T>)
    ensures |r| <= |s|
    ensures forall x <- r :: x in s && p(x)
    ensures forall x <- s :: p(x) ==> x in r
    ensures multiset(r) <= multiset(s)
  {
    if s == [] then []
    else
      assert s == [s[0]] + s[1..];
      (if p(s[0]) then [s[0]] else []) + Filter(s[1..], p)
  }

  lemma {:induction false} FilterAppend<T>(s: seq<T>, t: seq<T>, p: T -> bool)
    ensures Filter(s + t, p) == Filter(s, p) + Filter(t, p)
  {
    if s != [] {
      assert (s + t)[1..] == s[1..] + t;
      FilterAppend(s[1..], t, p);
    } else {
      assert s + t == t;
    }
  }

  /** Filtering keeps the input order: the result is the input with the rejected elements removed. */
  lemma {:induction false} FilterSnoc<T>(s: seq<T>, x: T, p: T -> bool)
    ensures Filter(s + [x], p) == Filter(s, p) + (if p(x) then [x] else [])
  {
    FilterAppend(s, [x], p);
    assert Filter([x], p) == (if p(x) then [x] else []) + Filter([x][1..], p);
  }

  /** Filtering twice with the same predicate changes nothing the second time. */
  lemma {:induction false} FilterIdempotent<T>(s: seq<T>, p: T -> bool)
    ensures Filter(Filter(s, p), p) == Filter(s, p)
  {
    if s != [] {
      FilterIdempotent(s[1..], p);
      if p(s[0]) {
        var f := Filter(s, p);
        assert f == [s[0]] + Filter(s[1..], p);
        assert f[1..] == Filter(s[1..], p);
      } else {
        assert Filter(s, p) == Filter(s[1..], p);
      }
    }
  }

  /** Resolves a `slice` bound: negative values count from the end, everything is clamped. */
  function SliceBound(len: nat, x: int): (r: nat)
    ensures r <= len
    ensures 0 <= x <= len ==> r == x
    ensures x > len ==> r == len
  {
    if x < 0 then (if len + x < 0 then 0 else len + x)
    else if x > len then len
    else x
  }

  /** `s.slice(start, end)`. */
  function JsSlice<T>(s: seq<T>, start: int, end: int): (r: seq<T>)
    ensures |r| <= |s|
    ensures forall x <- r :: x in s
  {
    var a := SliceBound(|s|, start);
    var b := SliceBound(|s|, end);
    if a < b then s[a..b] else []
  }

  /** `s.slice(0, n)` for `n >= 0` is the first `min(n, |s|)` elements. */
  lemma TakePrefix<T>(s: seq<T>, n: int)
    requires n >= 0
    ensures JsSlice(s, 0, n) == s[..if n < |s| then n else |s|]
  {
  }

  /** `arr.flat()` for an array of arrays. */
  function Flatten<T>(ss: seq<seq<T>>): (r: seq<T>)
  {
    if ss == [] then [] else ss[0] + Flatten(ss[1..])
  }

  lemma {:induction false} FlattenLength<T>(ss: seq<seq<T>>)
    ensures |Flatten(ss)| == SumLengths(ss)
  {
    if ss != [] { FlattenLength(ss[1..]); }
  }

  function SumLengths<T>(ss: seq<seq<T>>): nat {
    if ss == [] then 0 else |ss[0]| + SumLengths(ss[1..])
  }

  lemma {:induction false} FlattenMembership<T>(ss: seq<seq<T>>, x: T)
    ensures x in Flatten(ss) <==> exists i :: 0 <= i < |ss| && x in ss[i]
  {
    if ss != [] {
      FlattenMembership(ss[1..], x);
      if x in ss[0] {
      } else if x in Flatten(ss[1..]) {
        var i :| 0 <= i < |ss[1..]| && x in ss[1..][i];
        assert x in ss[i + 1];
      } else {
        forall i | 0 <= i < |ss| ensures x !in ss[i] {
          if i > 0 { assert ss[i] == ss[1..][i - 1]; }
        }
      }
    }
  }

  predicate NoDuplicates<T(==)>(s: seq<T>) {
    forall i, j :: 0 <= i < j < |s| ==> s[i] != s[j]
  }

  /** `Array.from(new Set(s))`: the distinct elements in first-occurrence order. */
  function Distinct<T(==)>(s: seq<T>): (r: seq<T>)
    ensures forall x <- r :: x in s
    ensures forall x <- s :: x in r
    ensures NoDuplicates(r)
  {
    if s == [] then []
    else
      var d := Distinct(s[..|s| - 1]);
      var x := s[|s| - 1];
      assert s == s[..|s| - 1] + [x];
      if x in d then d else d + [x]
  }

  lemma EmptyWhenNoElement<T>(s: set<T>)
    ensures (forall y :: y !in s) ==> s == {}
  {
    if forall y :: y !in s { assert s == {}; }
  }

  /** A non-empty set has an element (what `var y :| y in s` needs). */
  lemma NonEmptyHasElement<T>(s: set<T>)
    requires s != {}
    ensures exists y :: y in s
  {
    EmptyWhenNoElement(s);
  }

  lemma EmptyWhenNoInt(s: set<int>)
    ensures (forall y :: y !in s) ==> s == {}
  {
    if forall y :: y !in s { assert s == {}; }
  }

  /** `NonEmptyHasElement` for integer sets, whose elements the verifier represents unboxed. */
  lemma NonEmptyHasInt(s: set<int>)
    requires s != {}
    ensures exists y :: y in s
  {
    EmptyWhenNoInt(s);
  }
  /** A sequence has no repeated element exactly when no element occurs twice in its multiset. */
  lemma {:induction false} NoDuplicatesMultiset<T>(s: seq<T>)
    ensures NoDuplicates(s) <==> forall x :: multiset(s)[x] <= 1
  {
    if s != [] {
      var init := s[..|s| - 1];
      var x := s[|s| - 1];
      assert s == init + [x];
      NoDuplicatesMultiset(init);
      if NoDuplicates(s) {
        forall i, j | 0 <= i < j < |init| ensures init[i] != init[j] {
          assert init[i] == s[i] && init[j] == s[j];
        }
        forall i | 0 <= i < |init| ensures init[i] != x {
          assert init[i] == s[i];
        }
      } else {
        var i, j :| 0 <= i < j < |s| && s[i] == s[j];
        if j < |s| - 1 {
          assert init[i] == init[j];
          var y :| multiset(init)[y] > 1;
          assert multiset(s)[y] > 1;
        } else {
          assert init[i] == x;
          assert multiset(s)[x] > 1;
        }
      }
    }
  }

  /** Reordering keeps a sequence free of duplicates. */
  lemma PermutationKeepsDistinct<T>(a: seq<T>, b: seq<T>)
    requires multiset(a) == multiset(b) && NoDuplicates(a)
    ensures NoDuplicates(b)
  {
    NoDuplicatesMultiset(a);
    NoDuplicatesMultiset(b);
  }
}
