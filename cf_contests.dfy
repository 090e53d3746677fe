/**
 * frontend/src/utils/cfContests.ts: the contest id to name map fetched from Codeforces
 * and cached for a day, and the division label read off a contest name by a few regular
 * expressions, written out here as scanners with the regular expressions' leftmost,
 * greedy semantics.
 */
module CfContests {
  import opened Wrappers
  import Strings

  // ---------------- scanning ----------------

  /** `w` (lower case) occurs at `p` ignoring ASCII case, as under the `i` flag. */
  predicate MatchesAt(s: string, p: nat, w: string) {
    p + |w| <= |s| && forall i :: 0 <= i < |w| ==> Strings.LowerChar(s[p + i]) == w[i]
  }

  /** `\b` before a word character at `p`. */
  predicate BoundaryBefore(s: string, p: nat) {
    p == 0 || (p <= |s| && !Strings.IsWordChar(s[p - 1]))
  }

  /** `\b` after a word character ending at `e`. */
  predicate BoundaryAfter(s: string, e: nat) {
    e >= |s| || !Strings.IsWordChar(s[e])
  }

  /** `\s*` from `i`: the first position that is not whitespace. */
  function SkipSpaces(s: string, i: nat): (j: nat)
    requires i <= |s|
    ensures i <= j <= |s| && (forall k :: i <= k < j ==> Strings.IsJsSpace(s[k]))
    ensures j < |s| ==> !Strings.IsJsSpace(s[j])
    decreases |s| - i
  {
    if i == |s| || !Strings.IsJsSpace(s[i]) then i else SkipSpaces(s, i + 1)
  }

  /** `\d*` from `i`: the first position that is not a digit. */
  function DigitsEnd(s: string, i: nat): (j: nat)
    requires i <= |s|
    ensures i <= j <= |s| && (forall k :: i <= k < j ==> Strings.IsDigit(s[k]))
    ensures j < |s| ==> !Strings.IsDigit(s[j])
    decreases |s| - i
  {
    if i == |s| || !Strings.IsDigit(s[i]) then i else DigitsEnd(s, i + 1)
  }

  function SkipDot(s: string, i: nat): (j: nat)
    requires i <= |s|
    ensures j == i || (i < |s| && s[i] == '.' && j == i + 1)
    ensures j <= |s|
  {
    if i < |s| && s[i] == '.' then i + 1 else i
  }

  // ---------------- the division pattern ----------------

  /** `Div(?:ision|\.?)\s*\.?\s*`: where the first number has to start, after a `\b` and "div" at `p`. */
  function DivNumberStart(s: string, p: nat): (r: Option<nat>)
    ensures r.Some? ==> r.value <= |s|
  {
    if !(p < |s| && BoundaryBefore(s, p) && MatchesAt(s, p, "div")) then None
    else
      var i := if MatchesAt(s, p + 3, "ision") then p + 8 else SkipDot(s, p + 3);
      Some(SkipSpaces(s, SkipDot(s, SkipSpaces(s, i))))
  }

  /**
   * The label for a match of `divRegex` at `p`: "Div." and the first number, then "+" and
   * the second when `\s*\+\s*(\d+)` follows the first number.
   */
  function DivMatchAt(s: string, p: nat): (r: Option<string>)
  {
    match DivNumberStart(s, p)
    case None => None
    case Some(i) => LabelFrom(s, i)
  }

  /** `(\d+)` at `i` and what follows: "Div." and the digits, and the second number if there is one. */
  function LabelFrom(s: string, i: nat): (r: Option<string>)
    requires i <= |s|
  {
    var e := DigitsEnd(s, i);
    if e == i then None else Some("Div." + s[i..e] + SecondNumber(s, e))
  }

  /** `(?:\s*\+\s*(\d+))?` at `e`: "+" and the digits when it matches, nothing otherwise. */
  function SecondNumber(s: string, e: nat): (r: string)
    requires e <= |s|
  {
    var j := SkipSpaces(s, e);
    if j < |s| && s[j] == '+' then
      var k := SkipSpaces(s, j + 1);
      var e2 := DigitsEnd(s, k);
      if e2 > k then "+" + s[k..e2] else ""
    else ""
  }

  /** `name.match(divRegex)`: the leftmost match at or after `p`. */
  function DivScan(s: string, p: nat): (r: Option<string>)
    decreases |s| - p
  {
    if p > |s| then None
    else
      var m := DivMatchAt(s, p);
      if m.Some? then m else DivScan(s, p + 1)
  }

  /** The scan returns the match of the leftmost position that matches. */
  lemma {:induction false} DivScanLeftmost(s: string, p: nat, q: nat)
    requires p <= q <= |s| && DivMatchAt(s, q).Some?
    requires forall k :: p <= k < q ==> DivMatchAt(s, k).None?
    ensures DivScan(s, p) == DivMatchAt(s, q)
    decreases q - p
  {
    if p < q {
      assert DivMatchAt(s, p).None?;
      DivScanLeftmost(s, p + 1, q);
    }
  }

  /** The scan finds nothing exactly when no position from `p` on matches. */
  lemma {:induction false} DivScanNone(s: string, p: nat)
    ensures DivScan(s, p).None? <==> forall q :: p <= q <= |s| ==> DivMatchAt(s, q).None?
    decreases |s| - p
  {
    if p <= |s| {
      DivScanNone(s, p + 1);
      var m := DivMatchAt(s, p);
      assert DivScan(s, p) == if m.Some? then m else DivScan(s, p + 1);
      if m.None? && DivScan(s, p + 1).None? {
        forall q | p <= q <= |s| ensures DivMatchAt(s, q).None? {
          if q > p {
            assert p + 1 <= q;
          }
        }
      }
    }
  }

  /**
   * `divAlt`, `\b(Div(?:\.)?\s*\d+(?:\+\d+)?)\b`, can only match where `divRegex` already
   * does: a "div", an optional dot, spaces and a digit are a match of the first pattern.
   * So once the first pattern finds nothing, the second never returns a label.
   */
  predicate AltStartsAt(s: string, p: nat) {
    p < |s| && BoundaryBefore(s, p) && MatchesAt(s, p, "div")
    && var i := SkipSpaces(s, SkipDot(s, p + 3)); i < |s| && Strings.IsDigit(s[i])
  }

  lemma DivAltSubsumed(s: string, p: nat)
    requires AltStartsAt(s, p)
    ensures DivMatchAt(s, p).Some?
  {
    var i := SkipSpaces(s, SkipDot(s, p + 3));
    assert s[p + 3] == '.' || Strings.IsJsSpace(s[p + 3]) || Strings.IsDigit(s[p + 3]);
    assert Strings.LowerChar(s[p + 3 + 0]) != "ision"[0];
    assert SkipDot(s, i) == i && SkipSpaces(s, i) == i;
    assert DivNumberStart(s, p) == Some(i);
    assert DigitsEnd(s, i) > i;
  }

  // ---------------- the word patterns ----------------

  /** `/\bw\b/i.test(s)` for a word `w` that begins and ends with a word character. */
  predicate HasWord(s: string, w: string) {
    exists p | 0 <= p <= |s| :: BoundaryBefore(s, p) && MatchesAt(s, p, w) && BoundaryAfter(s, p + |w|)
  }

  /** `parseDivisionFromContestName`. */
  function ParseDivision(name: Option<string>): (r: Option<string>)
    ensures name.None? || name == Some("") ==> r.None?
    ensures name.Some? && name.value != "" && DivScan(name.value, 0).Some? ==> r == DivScan(name.value, 0)
  {
    if name.None? || name.value == "" then None
    else
      var s := name.value;
      var m := DivScan(s, 0);
      if m.Some? then m
      else if HasWord(s, "educational") then Some("Educational")
      else if HasWord(s, "global round") then Some("Global")
      else if HasWord(s, "gym") then Some("Gym")
      else None
  }

  /**
   * Without a division pattern the name is labelled by the first of "Educational",
   * "Global Round" and "Gym" it has as a word, or not at all.
   */
  lemma ParseDivisionFallbacks(s: string)
    requires s != "" && forall q :: 0 <= q <= |s| ==> DivMatchAt(s, q).None?
    ensures ParseDivision(Some(s)) ==
      if HasWord(s, "educational") then Some("Educational")
      else if HasWord(s, "global round") then Some("Global")
      else if HasWord(s, "gym") then Some("Gym")
      else None
  {
    DivScanNone(s, 0);
  }

  /** Every label is "Div.N", "Div.N+M" with digit strings N and M, or one of the three words. */
  lemma ParseDivisionShape(name: Option<string>)
    ensures var r := ParseDivision(name);
      r.None? || r == Some("Educational") || r == Some("Global") || r == Some("Gym")
      || (|r.value| > 4 && r.value[..4] == "Div." && Strings.IsDigit(r.value[4]))
  {
    if name.Some? && name.value != "" && DivScan(name.value, 0).Some? {
      DivScanFirstDigit(name.value, 0);
    }
  }

  lemma {:induction false} DivScanFirstDigit(s: string, p: nat)
    ensures var r := DivScan(s, p); r.Some? ==> |r.value| > 4 && r.value[..4] == "Div." && Strings.IsDigit(r.value[4])
    decreases |s| - p
  {
    if p <= |s| {
      if DivMatchAt(s, p).None? {
        DivScanFirstDigit(s, p + 1);
      } else {
        DivMatchFirstDigit(s, p);
      }
    }
  }

  lemma DivMatchFirstDigit(s: string, p: nat)
    requires DivMatchAt(s, p).Some?
    ensures var r := DivMatchAt(s, p).value; |r| > 4 && r[..4] == "Div." && Strings.IsDigit(r[4])
  {
    var i := DivNumberStart(s, p).value;
    var e := DigitsEnd(s, i);
    assert Strings.IsDigit(s[i]);
    assert DivMatchAt(s, p).value == "Div." + s[i..e] + SecondNumber(s, e);
  }

  /** "Div.1+2" keeps both numbers. */
  lemma CombinedDivisionLabel()
    ensures ParseDivision(Some("Div.1+2")) == Some("Div.1+2")
  {
    var s := "Div.1+2";
    assert Strings.LowerChar(s[0]) == 'd' && Strings.LowerChar(s[1]) == 'i' && Strings.LowerChar(s[2]) == 'v';
    assert MatchesAt(s, 0, "div");
    assert Strings.LowerChar(s[3 + 0]) != "ision"[0];
    assert SkipDot(s, 3) == 4 && SkipSpaces(s, 4) == 4 && SkipDot(s, 4) == 4;
    assert DivNumberStart(s, 0) == Some(4);
    assert DigitsEnd(s, 5) == 5;
    assert DigitsEnd(s, 4) == 5;
    assert SkipSpaces(s, 5) == 5 && SkipSpaces(s, 6) == 6;
    assert DigitsEnd(s, 7) == 7;
    assert DigitsEnd(s, 6) == 7;
    assert s[6..7] == "2";
    assert SecondNumber(s, 5) == "+2";
    assert s[4..5] == "1";
    assert "Div." + "1" + "+2" == "Div.1+2";
    assert LabelFrom(s, 4) == Some("Div.1+2");
  }

  /** "(Div. 1 + Div. 2)" gives only "Div.1": after "+" the pattern wants digits, not a second "Div.". */
  lemma SpelledOutCombinedDivision()
    ensures ParseDivision(Some("(Div. 1 + Div. 2)")) == Some("Div.1")
  {
    SpelledOutNoMatchAtZero();
    SpelledOutFirstMatch();
    FirstMatchAtOne("(Div. 1 + Div. 2)");
  }

  lemma SpelledOutNoMatchAtZero()
    ensures DivMatchAt("(Div. 1 + Div. 2)", 0).None?
  {
    var s := "(Div. 1 + Div. 2)";
    assert Strings.LowerChar(s[0 + 0]) != "div"[0];
  }

  /** A name whose first match starts at its second character. */
  lemma FirstMatchAtOne(s: string)
    requires 1 <= |s| && DivMatchAt(s, 0).None? && DivMatchAt(s, 1).Some?
    ensures ParseDivision(Some(s)) == DivMatchAt(s, 1)
  {
    DivScanLeftmost(s, 0, 1);
  }

  lemma SpelledOutFirstMatch()
    ensures DivMatchAt("(Div. 1 + Div. 2)", 1) == Some("Div.1")
  {
    var s := "(Div. 1 + Div. 2)";
    assert Strings.LowerChar(s[1]) == 'd' && Strings.LowerChar(s[2]) == 'i' && Strings.LowerChar(s[3]) == 'v';
    assert MatchesAt(s, 1, "div");
    assert Strings.LowerChar(s[4 + 0]) != "ision"[0];
    assert SkipDot(s, 4) == 5;
    assert SkipSpaces(s, 6) == 6;
    assert SkipSpaces(s, 5) == 6 && SkipDot(s, 6) == 6;
    assert DivNumberStart(s, 1) == Some(6);
    SpelledOutLabel();
  }

  lemma SpelledOutLabel()
    ensures LabelFrom("(Div. 1 + Div. 2)", 6) == Some("Div.1")
  {
    var s := "(Div. 1 + Div. 2)";
    assert DigitsEnd(s, 7) == 7;
    assert DigitsEnd(s, 6) == 7;
    assert SkipSpaces(s, 8) == 8;
    assert SkipSpaces(s, 7) == 8;
    assert SkipSpaces(s, 10) == 10;
    assert SkipSpaces(s, 9) == 10 && DigitsEnd(s, 10) == 10;
    assert SecondNumber(s, 7) == "";
    assert s[6..7] == "1";
    assert "Div." + "1" + "" == "Div.1";
  }

  // ---------------- the contest map ----------------

  /** An entry of `contest.list`: `id` when it is a number, `name` when it is a string. */
  datatype RawContest = RawContest(id: Option<int>, name: Option<string>)

  predicate Usable(c: RawContest) {
    c.id.Some? && c.name.Some?
  }

  /** The map after the entries of `cs`, from first to last. */
  function ContestMapOf(cs: seq<RawContest>): map<int, string> {
    if cs == [] then map[]
    else
      var m := ContestMapOf(cs[..|cs| - 1]);
      var c := cs[|cs| - 1];
      if Usable(c) then m[c.id.value := c.name.value] else m
  }

  /** The loop of `fetchContestListFromAPI`. */
  method BuildContestMap(cs: seq<RawContest>) returns (m: map<int, string>)
    ensures m == ContestMapOf(cs)
  {
    m := map[];
    for i := 0 to |cs|
      invariant m == ContestMapOf(cs[..i])
    {
      assert cs[..i + 1][..i] == cs[..i];
      var c := cs[i];
      if c.id.Some? && c.name.Some? {
        m := m[c.id.value := c.name.value];
      }
    }
    assert cs[..|cs|] == cs;
  }

  /** Entry `i` is usable, has `id`, and no later usable entry has `id`. */
  predicate LastUsableWith(cs: seq<RawContest>, i: int, id: int) {
    0 <= i < |cs| && Usable(cs[i]) && cs[i].id.value == id
    && forall j :: i < j < |cs| && Usable(cs[j]) ==> cs[j].id.value != id
  }

  /**
   * An id is in the map iff some usable entry has it, and it maps to the name of the last
   * usable entry with that id: later duplicates overwrite earlier ones.
   */
  lemma {:induction false} ContestMapLastWins(cs: seq<RawContest>, id: int)
    ensures id in ContestMapOf(cs) <==> exists c <- cs :: Usable(c) && c.id.value == id
    ensures forall i :: LastUsableWith(cs, i, id) ==> id in ContestMapOf(cs) && ContestMapOf(cs)[id] == cs[i].name.value
  {
    ContestMapKeys(cs, id);
    forall i | LastUsableWith(cs, i, id)
      ensures id in ContestMapOf(cs) && ContestMapOf(cs)[id] == cs[i].name.value
    {
      ContestMapLast(cs, i, id);
    }
  }

  lemma {:induction false} ContestMapKeys(cs: seq<RawContest>, id: int)
    ensures id in ContestMapOf(cs) <==> exists c <- cs :: Usable(c) && c.id.value == id
  {
    if cs != [] {
      var init := cs[..|cs| - 1];
      ContestMapKeys(init, id);
      assert forall x <- cs :: x in init || x == cs[|cs| - 1];
    }
  }

  lemma {:induction false} ContestMapLast(cs: seq<RawContest>, i: int, id: int)
    requires LastUsableWith(cs, i, id)
    ensures id in ContestMapOf(cs) && ContestMapOf(cs)[id] == cs[i].name.value
  {
    var init := cs[..|cs| - 1];
    if i < |cs| - 1 {
      assert init[i] == cs[i];
      assert LastUsableWith(init, i, id) by {
        forall j | i < j < |init| && Usable(init[j]) ensures init[j].id.value != id {
          assert init[j] == cs[j];
        }
      }
      ContestMapLast(init, i, id);
    }
  }

  // ---------------- loading ----------------

  const ContestCacheKey := "cf_contest_list_cache_v1"
  const ContestTtlMs := 1000 * 60 * 60 * 24

  /** The stored `{ ts, map }`. */
  datatype CachedContests = CachedContests(ts: int, contests: map<int, string>)

  /** `contest.list`: a failed request, a status other than "OK" or a non-array result throws. */
  datatype ListAnswer = ListFailed | ListOk(result: seq<RawContest>)

  datatype LoadOutcome = LoadError | LoadedMap(contests: map<int, string>, cache: Option<CachedContests>)

  /**
   * `loadContestMap`: an unforced load uses a cache younger than a day and fetches
   * nothing; otherwise the fetched map is returned and cached with the time, and a failed
   * fetch is an error.
   */
  function LoadContestMap(forceRefresh: bool, cache: Option<CachedContests>, now: int, answer: ListAnswer): (r: LoadOutcome)
    ensures !forceRefresh && cache.Some? && now - cache.value.ts < ContestTtlMs ==>
      r == LoadedMap(cache.value.contests, cache)
    ensures (forceRefresh || cache.None? || now - cache.value.ts >= ContestTtlMs) ==>
      match answer
      case ListFailed => r == LoadError
      case ListOk(result) => r == LoadedMap(ContestMapOf(result), Some(CachedContests(now, ContestMapOf(result))))
  {
    if !forceRefresh && cache.Some? && now - cache.value.ts < ContestTtlMs then LoadedMap(cache.value.contests, cache)
    else match answer
      case ListFailed => LoadError
      case ListOk(result) =>
        var m := ContestMapOf(result);
        LoadedMap(m, Some(CachedContests(now, m)))
  }

  /** `getContestDivision`: no label without an id, without a name, or when loading fails. */
  function ContestDivision(contestId: Option<int>, cache: Option<CachedContests>, now: int, answer: ListAnswer): (r: Option<string>)
    ensures contestId.None? ==> r.None?
    ensures contestId.Some? ==> match LoadContestMap(false, cache, now, answer)
      case LoadError => r.None?
      case LoadedMap(m, _) => r == (if contestId.value in m then ParseDivision(Some(m[contestId.value])) else None)
  {
    if contestId.None? then None
    else match LoadContestMap(false, cache, now, answer)
      case LoadError => None
      case LoadedMap(m, _) =>
        if contestId.value !in m || m[contestId.value] == "" then None
        else ParseDivision(Some(m[contestId.value]))
  }
}
