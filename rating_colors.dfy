/**
 * frontend/src/utils/ratingColors.ts: the Codeforces rank table, the colour and rank name
 * of a rating (a search for the first row whose range holds it), and the two-part
 * rendering of a Legendary Grandmaster's handle.
 */
module RatingColors {
  import opened Wrappers

  /** A row: a rank, its colour and its inclusive range, open-ended when `hi` is `None`. */
  datatype RatingItem = RatingItem(name: string, color: string, lo: int, hi: Option<int>)

  /** `RATING_COLORS`. */
  function Table(): (t: seq<RatingItem>)
    ensures |t| == 9
  {
    [ RatingItem("Newbie", "#808080", 0, Some(1199)),
      RatingItem("Pupil", "#00C853", 1200, Some(1399)),
      RatingItem("Specialist", "#00B0FF", 1400, Some(1599)),
      RatingItem("Expert", "#0077FF", 1600, Some(1899)),
      RatingItem("Candidate Master", "#7C4DFF", 1900, Some(2199)),
      RatingItem("Master", "#FF8C00", 2200, Some(2299)),
      RatingItem("International Master", "#FF8C00", 2300, Some(2599)),
      RatingItem("Grandmaster", "#FF3B30", 2600, Some(2899)),
      RatingItem("Legendary Grandmaster", "#FF3B30", 2900, None) ]
  }

  /** The test inside the loop: `rating >= lo`, and `rating <= hi` when there is a `hi`. */
  predicate InRange(item: RatingItem, rating: int) {
    rating >= item.lo && (item.hi.None? || rating <= item.hi.value)
  }

  /** The loop over the rows from `i` on, returning at the first row that holds the rating. */
  function FindFrom(rating: int, i: nat): (r: Option<nat>)
    requires i <= 9
    ensures r.Some? ==>
      i <= r.value < 9 && InRange(Table()[r.value], rating)
      && forall j :: i <= j < r.value ==> !InRange(Table()[j], rating)
    ensures r.None? ==> forall j :: i <= j < 9 ==> !InRange(Table()[j], rating)
    decreases 9 - i
  {
    if i == 9 then None
    else if InRange(Table()[i], rating) then Some(i)
    else FindFrom(rating, i + 1)
  }

  function FindTier(rating: int): Option<nat> {
    FindFrom(rating, 0)
  }

  /** `getColorForRating`; `None` is a rating that is not a number or is NaN. */
  function ColorForRating(rating: Option<int>): string {
    if rating.None? then "#808080"
    else match FindTier(rating.value)
      case Some(i) => Table()[i].color
      case None => "#808080"
  }

  /** `getRatingName`. */
  function RatingName(rating: Option<int>): string {
    if rating.None? then "Unrated"
    else match FindTier(rating.value)
      case Some(i) => Table()[i].name
      case None => "Unrated"
  }

  /** The ranges cover every rating from 0 up and do not overlap: each such rating has exactly one row. */
  lemma TiersPartition(rating: int)
    requires rating >= 0
    ensures FindTier(rating).Some?
    ensures forall i, j :: 0 <= i < 9 && 0 <= j < 9 && InRange(Table()[i], rating) && InRange(Table()[j], rating) ==> i == j
  {
  }

  /** The colour and the name of a rating always come from the same row, or are both the fallback. */
  lemma SameRow(rating: Option<int>)
    ensures rating.Some? && FindTier(rating.value).Some? ==>
      var i := FindTier(rating.value).value;
      ColorForRating(rating) == Table()[i].color && RatingName(rating) == Table()[i].name
    ensures rating.None? || FindTier(rating.value).None? <==>
      ColorForRating(rating) == "#808080" && RatingName(rating) == "Unrated"
  {
    if rating.Some? && FindTier(rating.value).Some? {
      var i := FindTier(rating.value).value;
      assert Table()[i].name != "Unrated";
    }
  }

  /** A negative rating is outside every range and gets the fallback. */
  lemma NegativeIsUnrated(rating: int)
    requires rating < 0
    ensures FindTier(rating).None?
    ensures ColorForRating(Some(rating)) == "#808080" && RatingName(Some(rating)) == "Unrated"
  {
  }

  /** From 2900 up every rating is Legendary Grandmaster, and a higher rating never has a lower row. */
  lemma TierMonotone(a: int, b: int)
    requires 0 <= a <= b
    ensures (b >= 2900 ==> RatingName(Some(b)) == "Legendary Grandmaster")
    ensures FindTier(a).value <= FindTier(b).value
  {
    TiersPartition(a);
    TiersPartition(b);
  }

  /** One coloured piece of a rendered handle. */
  datatype Part = Part(text: string, color: string)

  /** `getHandleParts`. */
  function HandleParts(handle: string, rating: Option<int>): (parts: seq<Part>)
    ensures !(rating.Some? && rating.value >= 2900) ==> parts == [Part(handle, ColorForRating(rating))]
    ensures rating.Some? && rating.value >= 2900 ==>
      |parts| == 2 && parts[0].text + parts[1].text == handle && |parts[0].text| <= 1
      && parts[0].color == "var(--lgm-first)" && parts[1].color == ColorForRating(rating)
  {
    if !(rating.Some? && rating.value >= 2900) then [Part(handle, ColorForRating(rating))]
    else
      var first := if handle == [] then "" else handle[..1];
      var rest := if handle == [] then "" else handle[1..];
      assert handle == [] || handle == handle[..1] + handle[1..];
      assert FindTier(rating.value) == Some(8);
      [Part(first, "var(--lgm-first)"), Part(rest, "#FF3B30")]
  }
}
