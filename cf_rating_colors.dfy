/**
 * frontend/src/utils/cfRatingColors.ts: the table from ladder ratings (800 to 3500 in
 * steps of 100) to button colours, filled by seven loops at module load, the last one a
 * red gradient from rgb(139, 0, 0) to rgb(255, 0, 0).
 */
module CfRatingColors {
  import opened Wrappers
  import Strings
  import Arith

  /** The rating keys: multiples of 100 from 800 to 3500. */
  predicate IsKey(r: int) {
    800 <= r <= 3500 && r % 100 == 0
  }

  /**
   * The red intensity `139 + floor((r - 2400) / 1100 * (255 - 139))`.  For the twelve keys
   * of the gradient the exact quotient is either a whole number (2400, 3500) or at least
   * 1/11 away from one, so integer division gives the same floor as the double arithmetic.
   */
  function Red(r: int): int
    requires r >= 2400
  {
    139 + (r - 2400) * (255 - 139) / 1100
  }

  function Rgb(red: nat): string {
    "rgb(" + Strings.NatToString(red) + ", 0, 0)"
  }

  /** The colour each band of keys gets; a number that is not a key has none. */
  function TableColor(r: int): (c: Option<string>)
    ensures c.Some? <==> IsKey(r)
  {
    if !IsKey(r) then None
    else if r < 1200 then Some("#808080")
    else if r < 1400 then Some("#4CAF50")
    else if r < 1600 then Some("#00BCD4")
    else if r < 1900 then Some("#2196F3")
    else if r < 2100 then Some("#9C27B0")
    else if r < 2400 then Some("#FF5722")
    else Some(Rgb(Red(r)))
  }

  /** The gradient starts at 139, ends at 255 and never decreases in between. */
  lemma RedGradient(a: int, b: int)
    requires 2400 <= a <= b
    ensures Red(2400) == 139 && Red(3500) == 255
    ensures Red(a) <= Red(b)
  {
    Arith.DivMonotone((a - 2400) * 116, (b - 2400) * 116, 1100);
  }

  /** Between two consecutive multiples of 100 there is no other. */
  lemma NextKey(k: int, r: int)
    requires k % 100 == 0 && r % 100 == 0 && r <= k < r + 100
    ensures k == r
  {
    assert k == 100 * (k / 100) && r == 100 * (r / 100);
  }

  lemma Hundreds(d: int, n: int)
    requires d == 100 * n
    ensures d / 100 == n
  {
  }

  /** The table so far: exactly the keys below `upTo`, each with its band's colour. */
  ghost predicate FilledBelow(table: map<int, string>, upTo: int) {
    (forall k :: k in table <==> IsKey(k) && k < upTo)
    && (forall k <- table :: TableColor(k) == Some(table[k]))
  }

  /** One write of a loop: the key `r` is new, and after it the table is filled below `r + 100`. */
  lemma FillStep(table: map<int, string>, r: int, color: string)
    requires IsKey(r) && FilledBelow(table, r) && TableColor(r) == Some(color)
    ensures r !in table && |table[r := color]| == |table| + 1
    ensures FilledBelow(table[r := color], r + 100)
  {
    forall k | IsKey(k) && k < r + 100 ensures k < r || k == r {
      if k >= r { NextKey(k, r); }
    }
  }

  /** One of the six constant-colour loops: `for (r = lo; r < hi; r += 100) table[r] = color`. */
  method FillBand(table0: map<int, string>, writes0: nat, lo: int, hi: int, color: string)
    returns (table: map<int, string>, writes: nat)
    requires 800 <= lo <= hi <= 3600 && lo % 100 == 0 && hi % 100 == 0
    requires FilledBelow(table0, lo) && |table0| == writes0
    requires forall k :: lo <= k < hi && k % 100 == 0 ==> TableColor(k) == Some(color)
    ensures FilledBelow(table, hi) && |table| == writes && writes == writes0 + (hi - lo) / 100
  {
    table, writes := table0, writes0;
    var r := lo;
    while r < hi
      invariant lo <= r <= hi && r % 100 == 0
      invariant FilledBelow(table, r) && |table| == writes && r - lo == 100 * (writes - writes0)
      decreases hi - r
    {
      FillStep(table, r, color);
      table := table[r := color];
      writes := writes + 1;
      r := r + 100;
    }
    Hundreds(hi - lo, writes - writes0);
  }

  /** The gradient loop: `for (r = 2400; r <= 3500; r += 100) table[r] = rgb(redIntensity, 0, 0)`. */
  method FillGradient(table0: map<int, string>, writes0: nat) returns (table: map<int, string>, writes: nat)
    requires FilledBelow(table0, 2400) && |table0| == writes0
    ensures FilledBelow(table, 3600) && |table| == writes && writes == writes0 + 12
  {
    table, writes := table0, writes0;
    var r := 2400;
    while r <= 3500
      invariant 2400 <= r <= 3600 && r % 100 == 0
      invariant FilledBelow(table, r) && |table| == writes && writes == writes0 + (r - 2400) / 100
      decreases 3600 - r
    {
      var redIntensity := 139 + (r - 2400) * (255 - 139) / 1100;
      FillStep(table, r, Rgb(redIntensity));
      table := table[r := Rgb(redIntensity)];
      writes := writes + 1;
      r := r + 100;
    }
  }

  /**
   * The module's loops.  Every key from 800 to 3500 is written exactly once (there are as
   * many writes as keys, 28) with its band's colour, and nothing else is written.
   */
  method BuildTable() returns (table: map<int, string>, writes: nat)
    ensures forall r :: r in table <==> IsKey(r)
    ensures forall r <- table :: TableColor(r) == Some(table[r])
    ensures writes == |table| == 28
  {
    table, writes := map[], 0;
    table, writes := FillBand(table, writes, 800, 1200, "#808080");
    assert writes == 4;
    table, writes := FillBand(table, writes, 1200, 1400, "#4CAF50");
    assert writes == 6;
    table, writes := FillBand(table, writes, 1400, 1600, "#00BCD4");
    assert writes == 8;
    table, writes := FillBand(table, writes, 1600, 1900, "#2196F3");
    assert writes == 11;
    table, writes := FillBand(table, writes, 1900, 2100, "#9C27B0");
    assert writes == 13;
    table, writes := FillBand(table, writes, 2100, 2400, "#FF5722");
    assert writes == 16;
    table, writes := FillGradient(table, writes);
  }
}
