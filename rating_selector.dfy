/** frontend/src/components/RatingSelector.tsx: one button per ladder rating, the selected one in its rating colour. */
module RatingSelector {
  import opened Wrappers
  import CfRatingColors

  /** `Array.from({ length: 28 }, (_, i) => 800 + i * 100)`. */
  function Ratings(): (rs: seq<int>)
    ensures |rs| == 28
  {
    seq(28, i requires 0 <= i < 28 => 800 + i * 100)
  }

  /**
   * The ladder runs from 800 to 3500 in steps of exactly 100, and its ratings are exactly
   * the keys of the rating colour table.
   */
  lemma RatingsAreTableKeys()
    ensures Ratings()[0] == 800 && Ratings()[27] == 3500
    ensures forall i :: 0 < i < 28 ==> Ratings()[i] - Ratings()[i - 1] == 100
    ensures forall r :: r in Ratings() <==> CfRatingColors.TableColor(r).Some?
  {
    var rs := Ratings();
    forall r | CfRatingColors.IsKey(r) ensures r in rs {
      var i := (r - 800) / 100;
      assert rs[i] == r;
    }
  }

  /** A button's background and text colour. */
  datatype Style = Style(background: string, text: string)

  /** The selected button takes `cfRatingColors[r] || "#000"` on white text; the others keep the theme's colours. */
  function ButtonStyle(r: int, selectedRating: int): Style {
    if selectedRating == r then
      Style(match CfRatingColors.TableColor(r) case Some(c) => c case None => "#000", "#fff")
    else Style("var(--card-bg)", "var(--foreground)")
  }

  function Buttons(selectedRating: int): (bs: seq<Style>)
    ensures |bs| == 28
  {
    seq(28, i requires 0 <= i < 28 => ButtonStyle(Ratings()[i], selectedRating))
  }

  /**
   * At most one button is highlighted, exactly when the selected rating is on the ladder,
   * and a highlighted button always shows its table colour, never the fallback.
   */
  lemma OneSelected(selectedRating: int)
    ensures var bs := Buttons(selectedRating);
      (forall i, j :: 0 <= i < j < 28 && bs[i].text == "#fff" ==> bs[j].text != "#fff")
      && ((exists i :: 0 <= i < 28 && bs[i].text == "#fff") <==> selectedRating in Ratings())
      && (forall i :: 0 <= i < 28 && bs[i].text == "#fff" ==>
            bs[i].background == CfRatingColors.TableColor(Ratings()[i]).value)
  {
    RatingsAreTableKeys();
    var bs := Buttons(selectedRating);
    if selectedRating in Ratings() {
      var i :| 0 <= i < 28 && Ratings()[i] == selectedRating;
      assert bs[i].text == "#fff";
    }
  }
}
