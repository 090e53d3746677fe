/**
 * frontend/src/components/TagSelector.tsx: the tag buttons, ordered by count (most
 * frequent first) and then by name, behind an "All" button whose count is the sum of
 * all counts.
 */
module TagSelector {
  import opened Wrappers
  import opened Strings
  import Seqs
  import Sorting
  import opened FrontProblems

  /** `tagCounts[t] || 0`: a tag without a count counts as 0. */
  function CountOf(counts: map<string, nat>, t: string): nat {
    if t in counts then counts[t] else 0
  }

  /**
   * The comparator: `b`'s count minus `a`'s, and on a tie `a.localeCompare(b)`, taken as
   * ordinal order; `a` may come first when the comparator is not positive.
   */
  function TagOrder(counts: map<string, nat>): (string, string) -> bool {
    (a: string, b: string) =>
      CountOf(counts, b) < CountOf(counts, a) || (CountOf(counts, a) == CountOf(counts, b) && StrLe(a, b))
  }

  lemma TagOrderTotal(counts: map<string, nat>)
    ensures Sorting.TotalPreorder(TagOrder(counts))
  {
    var le := TagOrder(counts);
    forall a, b ensures le(a, b) || le(b, a) {
      StrLeTotal(a, b);
    }
    forall a, b, c | le(a, b) && le(b, c) ensures le(a, c) {
      if CountOf(counts, a) == CountOf(counts, b) == CountOf(counts, c) {
        StrLeTrans(a, b, c);
      }
    }
  }

  /** `orderedTags`: a sorted copy of `tags`; the caller's array is left as it is. */
  function OrderedTags(tags: seq<string>, counts: map<string, nat>): seq<string> {
    Sorting.SortBy(tags, TagOrder(counts))
  }

  /**
   * The ordered tags are the given tags rearranged: every tag keeps its multiplicity, a
   * tag with a higher count comes before one with a lower count, and tags with the same
   * count are in name order.
   */
  lemma OrderedTagsSorted(tags: seq<string>, counts: map<string, nat>)
    ensures var r := OrderedTags(tags, counts);
      multiset(r) == multiset(tags)
      && forall i, j :: 0 <= i < j < |r| ==>
           CountOf(counts, r[i]) > CountOf(counts, r[j])
           || (CountOf(counts, r[i]) == CountOf(counts, r[j]) && StrLe(r[i], r[j]))
  {
    TagOrderTotal(counts);
    Sorting.SortBySorted(tags, TagOrder(counts));
  }

  /** One button: its tag (`None` for "All"), its caption, its count and whether it is highlighted. */
  datatype TagButton = TagButton(tag: Option<string>, caption: string, count: nat, selected: bool)

  /**
   * The count shown on a button: a falsy tag (`null`, and also the empty tag) shows the
   * sum of all counts, any other tag its own count or 0.
   */
  function ButtonCount(tag: Option<string>, tally: Tally): nat {
    if tag.None? || tag.value == "" then Sum(tally.order, tally.counts)
    else CountOf(tally.counts, tag.value)
  }

  function MakeButton(tag: Option<string>, tally: Tally, selectedTag: Option<string>): TagButton {
    TagButton(tag, if tag.None? then "All" else tag.value, ButtonCount(tag, tally), selectedTag == tag)
  }

  /**
   * `[null, ...orderedTags]` rendered as buttons: "All" with the sum of all counts first,
   * then one button per ordered tag, captioned with the tag and showing its count.
   */
  function Buttons(tags: seq<string>, tally: Tally, selectedTag: Option<string>): (r: seq<TagButton>)
    ensures |r| == |tags| + 1
    ensures r[0] == TagButton(None, "All", Sum(tally.order, tally.counts), selectedTag.None?)
    ensures forall i :: 1 <= i < |r| ==>
      var t := OrderedTags(tags, tally.counts)[i - 1];
      r[i].tag == Some(t) && r[i].caption == t && r[i].selected == (selectedTag == Some(t))
      && r[i].count == (if t == "" then Sum(tally.order, tally.counts) else CountOf(tally.counts, t))
  {
    var ordered := OrderedTags(tags, tally.counts);
    [MakeButton(None, tally, selectedTag)]
      + seq(|ordered|, i requires 0 <= i < |ordered| => MakeButton(Some(ordered[i]), tally, selectedTag))
  }

  /** With distinct tags, at most one button is highlighted. */
  lemma AtMostOneSelected(tags: seq<string>, tally: Tally, selectedTag: Option<string>)
    requires Seqs.NoDuplicates(tags)
    ensures var r := Buttons(tags, tally, selectedTag);
      forall i, j :: 0 <= i < j < |r| && r[i].selected ==> !r[j].selected
  {
    var ordered := OrderedTags(tags, tally.counts);
    Seqs.PermutationKeepsDistinct(tags, ordered);
    var r := Buttons(tags, tally, selectedTag);
    forall i, j | 0 <= i < j < |r| && r[i].selected ensures !r[j].selected {
      assert r[j].tag == Some(ordered[j - 1]);
      if i > 0 {
        assert r[i].tag == Some(ordered[i - 1]);
      }
    }
  }
}
