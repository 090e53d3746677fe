/**
 * frontend/src/components/Unsolved.tsx: the attempted-but-unsolved problems with a proper
 * contest id and problem index, most recently attempted first, at most forty of them.
 */
module Unsolved {
  import opened Wrappers
  import Seqs
  import Strings
  import Sorting

  /** An entry of `attemptedUnsolvedProblems`; a fractional contest id is not modelled. */
  datatype Attempted = Attempted(contestId: Option<int>, index: string, lastTime: Option<int>,
                                 key: string, link: string)

  /** `/^[A-Z0-9]+$/.test(index)`. */
  predicate IsProblemIndex(s: string) {
    |s| > 0 && forall c <- s :: Strings.IsUpper(c) || Strings.IsDigit(c)
  }

  /** The filter: a truthy, integral, positive contest id and an index of capitals and digits. */
  predicate IsShowable(p: Attempted) {
    p.contestId.Some? && p.contestId.value > 0 && IsProblemIndex(p.index)
  }

  function Showable(ps: seq<Attempted>): seq<Attempted> {
    Seqs.Filter(ps, IsShowable)
  }

  function LastTimeOrZero(p: Attempted): int {
    p.lastTime.GetOr(0)
  }

  /** The comparator `(b.lastTime ?? 0) - (a.lastTime ?? 0)`, as "a may come before b". */
  predicate NewestFirst(a: Attempted, b: Attempted) {
    LastTimeOrZero(b) - LastTimeOrZero(a) <= 0
  }

  lemma NewestFirstTotal()
    ensures Sorting.TotalPreorder(NewestFirst)
  {
  }

  /** The limit of the grid. */
  const Limit := 40

  /** What the component renders. */
  datatype View =
    | NoneAttempted                               // "No attempted-but-unsolved problems."
    | NoneValid                                   // "No valid attempted problems to show."
    | Grid(shown: seq<Attempted>, hasMore: bool)  // the cards and the "See All" link

  function Render(input: Option<seq<Attempted>>): (v: View)
    ensures v == NoneAttempted <==> input.None? || input.value == []
    ensures v == NoneValid <==> input.Some? && input.value != [] && Showable(input.value) == []
    ensures v.Grid? ==> |v.shown| <= Limit && forall p <- v.shown :: IsShowable(p) && p in input.value
    ensures v.Grid? ==> (v.hasMore <==> |Showable(input.value)| > Limit)
  {
    if input.None? || input.value == [] then NoneAttempted
    else
      var filtered := Showable(input.value);
      if filtered == [] then NoneValid
      else
        var sorted := Sorting.SortBy(filtered, NewestFirst);
        var limited := Seqs.JsSlice(sorted, 0, Limit);
        assert forall p <- limited :: p in multiset(sorted);
        Grid(limited, |sorted| > Limit)
  }

  /**
   * The grid shows a most-recent-first prefix of the showable entries: it is in `lastTime`
   * order, holds the first forty of them (all, when there are fewer), and no entry left
   * out was attempted later than one shown.  Every showable entry is shown unless there
   * are more than forty.
   */
  lemma GridIsNewestPrefix(input: seq<Attempted>)
    requires Showable(input) != []
    ensures var v := Render(Some(input));
      var sorted := Sorting.SortBy(Showable(input), NewestFirst);
      v.Grid?
      && v.shown == sorted[..if |sorted| < Limit then |sorted| else Limit]
      && multiset(sorted) == multiset(Showable(input))
      && (forall i, j :: 0 <= i < j < |v.shown| ==> LastTimeOrZero(v.shown[i]) >= LastTimeOrZero(v.shown[j]))
      && (forall i, j :: 0 <= i < |v.shown| <= j < |sorted| ==> LastTimeOrZero(v.shown[i]) >= LastTimeOrZero(sorted[j]))
      && (!v.hasMore ==> multiset(v.shown) == multiset(Showable(input)))
  {
    var sorted := Sorting.SortBy(Showable(input), NewestFirst);
    var n := if |sorted| < Limit then |sorted| else Limit;
    RenderIsGrid(input);
    NewestFirstTotal();
    Sorting.SortBySorted(Showable(input), NewestFirst);
    NewestOrdered(sorted);
    PrefixOrder(sorted, n);
  }

  /** With something to show, the grid holds the first forty sorted entries. */
  lemma RenderIsGrid(input: seq<Attempted>)
    requires Showable(input) != []
    ensures var sorted := Sorting.SortBy(Showable(input), NewestFirst);
      Render(Some(input)) == Grid(sorted[..if |sorted| < Limit then |sorted| else Limit], |sorted| > Limit)
  {
    Seqs.TakePrefix(Sorting.SortBy(Showable(input), NewestFirst), Limit);
  }

  /** A prefix of a sequence in `lastTime` order is in that order and no later than the rest. */
  lemma PrefixOrder(s: seq<Attempted>, n: nat)
    requires n <= |s|
    requires forall i, j :: 0 <= i < j < |s| ==> LastTimeOrZero(s[i]) >= LastTimeOrZero(s[j])
    ensures forall i, j :: 0 <= i < j < n ==> LastTimeOrZero(s[..n][i]) >= LastTimeOrZero(s[..n][j])
    ensures forall i, j :: 0 <= i < n <= j < |s| ==> LastTimeOrZero(s[..n][i]) >= LastTimeOrZero(s[j])
    ensures n == |s| ==> s[..n] == s
  {
  }

  /** A sequence sorted by the comparator is in non-increasing `lastTime` order. */
  lemma NewestOrdered(s: seq<Attempted>)
    requires Sorting.SortedBy(s, NewestFirst)
    ensures forall i, j :: 0 <= i < j < |s| ==> LastTimeOrZero(s[i]) >= LastTimeOrZero(s[j])
  {
    forall i, j | 0 <= i < j < |s| ensures LastTimeOrZero(s[i]) >= LastTimeOrZero(s[j]) {
      assert NewestFirst(s[i], s[j]);
    }
  }
}
