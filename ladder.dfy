/**
 * frontend/src/components/Ladder.tsx: the problems of the selected rating, their tags and
 * tag counts for the tag selector, the problems of the selected tag for the list, and
 * the per-problem status map.
 */
module Ladder {
  import opened Wrappers
  import Seqs
  import opened FrontProblems
  import TagSelector

  /** `p.rating === selectedRating`. */
  function HasRating(rating: int): FrontProblem -> bool {
    (p: FrontProblem) => p.rating == Some(rating)
  }

  /** `problemsForRating`: the problems rated exactly `rating`, in input order. */
  function ProblemsForRating(ps: seq<FrontProblem>, rating: int): (r: seq<FrontProblem>)
    ensures forall p <- r :: p in ps && p.rating == Some(rating)
    ensures forall p <- ps :: p.rating == Some(rating) ==> p in r
    ensures multiset(r) <= multiset(ps)
  {
    Seqs.Filter(ps, HasRating(rating))
  }

  /** Problems appended to the input are appended, if they qualify, to the selection: the order is the input's. */
  lemma ForRatingKeepsOrder(ps: seq<FrontProblem>, p: FrontProblem, rating: int)
    ensures ProblemsForRating(ps + [p], rating)
      == ProblemsForRating(ps, rating) + (if p.rating == Some(rating) then [p] else [])
  {
    Seqs.FilterSnoc(ps, p, HasRating(rating));
  }

  /** `tags`: each tag of the selected problems once, in first-occurrence order. */
  function LadderTags(forRating: seq<FrontProblem>): (r: seq<string>)
    ensures Seqs.NoDuplicates(r)
    ensures forall t :: t in r <==> exists p <- forRating :: t in TagsOf(p)
  {
    Seqs.Distinct(AllTags(forRating))
  }

  /** `tagCounts`: the counting loops over the selected problems. */
  method TagCounts(ps: seq<FrontProblem>, rating: int) returns (t: Tally)
    ensures forall x :: x in t.counts <==> exists p <- ProblemsForRating(ps, rating) :: x in TagsOf(p)
    ensures forall x <- t.counts :: t.counts[x] == multiset(AllTags(ProblemsForRating(ps, rating)))[x]
    ensures t.order == LadderTags(ProblemsForRating(ps, rating))
    ensures t == TallyOf(AllTags(ProblemsForRating(ps, rating)))
  {
    t := CountTags(ProblemsForRating(ps, rating));
  }

  /**
   * What the tag selector then shows: every offered tag has a count of at least one (the
   * tags are exactly the counted keys, in the same order), and the "All" count is the
   * number of tag occurrences among the selected problems.
   */
  lemma SelectorCountsAgree(forRating: seq<FrontProblem>)
    ensures var tally := TallyOf(AllTags(forRating));
      tally.order == LadderTags(forRating)
      && (forall t <- LadderTags(forRating) :: TagSelector.CountOf(tally.counts, t) >= 1)
      && TagSelector.ButtonCount(None, tally) == |AllTags(forRating)|
  {
    var s := AllTags(forRating);
    TallyCounts(s);
    TallySum(s);
    var tally := TallyOf(s);
    forall t <- LadderTags(forRating) ensures TagSelector.CountOf(tally.counts, t) >= 1 {
      assert t in s;
    }
  }

  /** `!selectedTag`: no tag, or the empty tag, selects every problem. */
  predicate NoTag(selectedTag: Option<string>) {
    selectedTag.None? || selectedTag.value == ""
  }

  /** `filteredProblems`: the selected problems that carry the selected tag, or all of them without a tag. */
  function FilteredProblems(forRating: seq<FrontProblem>, selectedTag: Option<string>): (r: seq<FrontProblem>)
    ensures NoTag(selectedTag) ==> r == forRating
    ensures !NoTag(selectedTag) ==>
      (forall p <- r :: p in forRating && selectedTag.value in TagsOf(p))
      && (forall p <- forRating :: selectedTag.value in TagsOf(p) ==> p in r)
      && multiset(r) <= multiset(forRating)
  {
    if NoTag(selectedTag) then forRating
    else Seqs.Filter(forRating, (p: FrontProblem) => p.tags.Some? && selectedTag.value in p.tags.value)
  }

  /** The component's state. */
  class LadderState {
    var selectedRating: int
    var selectedTag: Option<string>
    var userStatusMap: map<string, UserStatus>

    /** The initial state: rating 800, no tag, no statuses. */
    constructor ()
      ensures selectedRating == 800 && selectedTag == None && userStatusMap == map[]
    {
      selectedRating := 800;
      selectedTag := None;
      userStatusMap := map[];
    }

    /** `handleStatusChange`: records one problem's status and leaves every other entry. */
    method HandleStatusChange(problemKey: string, status: UserStatus)
      modifies this
      ensures userStatusMap == old(userStatusMap)[problemKey := status]
      ensures forall k <- old(userStatusMap) :: k != problemKey ==> k in userStatusMap && userStatusMap[k] == old(userStatusMap)[k]
      ensures userStatusMap.Keys == old(userStatusMap).Keys + {problemKey}
      ensures selectedRating == old(selectedRating) && selectedTag == old(selectedTag)
    {
      userStatusMap := userStatusMap[problemKey := status];
    }

    /** `onSelect` of the rating selector. */
    method SelectRating(rating: int)
      modifies this
      ensures selectedRating == rating
      ensures selectedTag == old(selectedTag) && userStatusMap == old(userStatusMap)
    {
      selectedRating := rating;
    }

    /** `onSelectTag` of the tag selector; the "All" button passes `None`. */
    method SelectTag(tag: Option<string>)
      modifies this
      ensures selectedTag == tag
      ensures selectedRating == old(selectedRating) && userStatusMap == old(userStatusMap)
    {
      selectedTag := tag;
    }

    /** The problems handed to the list for the current selection. */
    function Shown(ps: seq<FrontProblem>): seq<FrontProblem>
      reads this
    {
      FilteredProblems(ProblemsForRating(ps, selectedRating), selectedTag)
    }
  }
}
