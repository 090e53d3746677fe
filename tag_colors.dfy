/**
 * frontend/src/utils/tagColors.ts: black or white text for a background colour, the
 * lightening of a colour for dark mode, and the module-level memo that gives each tag,
 * the first time it is asked for, the next colour of a twelve-colour palette.
 */
module TagColors {
  import opened Wrappers
  import Strings

  // ---------------- hexadecimal colours ----------------

  predicate IsHexDigit(c: char) {
    Strings.IsDigit(c) || 'a' <= c <= 'f' || 'A' <= c <= 'F'
  }

  predicate IsLowerHexDigit(c: char) {
    Strings.IsDigit(c) || 'a' <= c <= 'f'
  }

  /** `#` and six hexadecimal digits of either case. */
  predicate IsHexColor(s: string) {
    |s| == 7 && s[0] == '#' && forall i :: 1 <= i < 7 ==> IsHexDigit(s[i])
  }

  function HexValue(c: char): nat
    requires IsHexDigit(c)
  {
    if Strings.IsDigit(c) then c as int - '0' as int
    else if 'a' <= c <= 'f' then c as int - 'a' as int + 10
    else c as int - 'A' as int + 10
  }

  /** `parseInt(s, 16)` of a string of hexadecimal digits. */
  function ParseHex(s: string): nat
    requires forall c <- s :: IsHexDigit(c)
  {
    if s == [] then 0 else ParseHex(s[..|s| - 1]) * 16 + HexValue(s[|s| - 1])
  }

  function HexChar(d: nat): (c: char)
    requires d < 16
    ensures IsLowerHexDigit(c) && IsHexDigit(c) && HexValue(c) == d
  {
    if d < 10 then ('0' as int + d) as char else ('a' as int + d - 10) as char
  }

  function Pow16(w: nat): nat {
    if w == 0 then 1 else 16 * Pow16(w - 1)
  }

  /**
   * The last `w` lowercase hexadecimal digits of `n`; for `n < 16^6` and `w == 6` this is
   * `((1 << 24) + n).toString(16).slice(1)`.
   */
  function ToHex(n: nat, w: nat): (s: string)
    ensures |s| == w && forall c <- s :: IsLowerHexDigit(c) && IsHexDigit(c)
  {
    if w == 0 then "" else ToHex(n / 16, w - 1) + [HexChar(n % 16)]
  }

  /** Formatting with enough digits and parsing back give the number. */
  lemma {:induction false} ParseToHex(n: nat, w: nat)
    requires n < Pow16(w)
    ensures ParseHex(ToHex(n, w)) == n
  {
    if w > 0 {
      ParseToHex(n / 16, w - 1);
      var s := ToHex(n, w);
      assert s[..|s| - 1] == ToHex(n / 16, w - 1);
    }
  }

  /** The three channels of a colour: `(num >> 16) & 0xff`, `(num >> 8) & 0xff` and `num & 0xff`. */
  function Red(hex: string): nat requires IsHexColor(hex) { ParseHex(hex[1..]) / 65536 % 256 }
  function Green(hex: string): nat requires IsHexColor(hex) { ParseHex(hex[1..]) / 256 % 256 }
  function Blue(hex: string): nat requires IsHexColor(hex) { ParseHex(hex[1..]) % 256 }

  /** A thousand times the weighted brightness `(r * 299 + g * 587 + b * 114) / 1000`. */
  function Brightness(hex: string): nat
    requires IsHexColor(hex)
  {
    Red(hex) * 299 + Green(hex) * 587 + Blue(hex) * 114
  }

  /** `getContrastColor`: black text on a background brighter than 150, white otherwise. */
  function ContrastColor(hex: string): (text: string)
    requires IsHexColor(hex)
    ensures text == "#000000" <==> Brightness(hex) > 150000
    ensures text == "#000000" || text == "#FFFFFF"
  {
    if Brightness(hex) > 150000 then "#000000" else "#FFFFFF"
  }

  function Cap(v: int): int { if v > 255 then 255 else v }

  /** `lightenColor`: each channel raised by `percent` and capped at 255, written back in lowercase. */
  function Lighten(hex: string, percent: nat): (r: string)
    requires IsHexColor(hex)
    ensures IsHexColor(r) && forall i :: 1 <= i < 7 ==> IsLowerHexDigit(r[i])
  {
    var num := ParseHex(hex[1..]);
    var red := Cap(num / 65536 + percent);
    var green := Cap(num / 256 % 256 + percent);
    var blue := Cap(num % 256 + percent);
    "#" + ToHex(red * 65536 + green * 256 + blue, 6)
  }

  lemma {:induction false} ParsedBelow(s: string)
    requires forall c <- s :: IsHexDigit(c)
    ensures ParseHex(s) < Pow16(|s|)
  {
    if s != [] {
      var pre := s[..|s| - 1];
      assert forall c <- pre :: c in s;
      ParsedBelow(pre);
      var p, v := ParseHex(pre), HexValue(s[|s| - 1]);
      assert p + 1 <= Pow16(|pre|) && v < 16;
      assert p * 16 + 16 <= Pow16(|pre|) * 16;
    }
  }

  /** Three channels below 256 packed as `r * 65536 + g * 256 + b` unpack to themselves. */
  lemma Unpack(red: int, green: int, blue: int)
    requires 0 <= red < 256 && 0 <= green < 256 && 0 <= blue < 256
    ensures var n := red * 65536 + green * 256 + blue;
      n < 16777216 && n / 65536 % 256 == red && n / 256 % 256 == green && n % 256 == blue
  {
    var n := red * 65536 + green * 256 + blue;
    assert n / 256 == red * 256 + green;
    assert n / 65536 == red;
  }

  /** The channels of a parsed colour are below 256 and its first channel needs no mask. */
  lemma ChannelsOf(hex: string)
    requires IsHexColor(hex)
    ensures ParseHex(hex[1..]) < 16777216
    ensures ParseHex(hex[1..]) / 65536 == Red(hex)
  {
    assert forall c <- hex[1..] :: IsHexDigit(c);
    ParsedBelow(hex[1..]);
    assert Pow16(6) == 16777216;
  }

  /** Each channel of the lightened colour is the old channel plus `percent`, capped at 255. */
  lemma LightenChannels(hex: string, percent: nat)
    requires IsHexColor(hex)
    ensures var l := Lighten(hex, percent);
      Red(l) == Cap(Red(hex) + percent) && Green(l) == Cap(Green(hex) + percent) && Blue(l) == Cap(Blue(hex) + percent)
  {
    ChannelsOf(hex);
    var red := Cap(Red(hex) + percent);
    var green := Cap(Green(hex) + percent);
    var blue := Cap(Blue(hex) + percent);
    Unpack(red, green, blue);
    var n := red * 65536 + green * 256 + blue;
    assert Pow16(6) == 16777216;
    ParseToHex(n, 6);
    var l := Lighten(hex, percent);
    assert l == "#" + ToHex(n, 6);
    assert l[1..] == ToHex(n, 6);
  }

  /** Lightening never makes a colour darker: a background that took black text still does. */
  lemma LightenKeepsBlackText(hex: string, percent: nat)
    requires IsHexColor(hex)
    ensures Brightness(Lighten(hex, percent)) >= Brightness(hex)
    ensures ContrastColor(hex) == "#000000" ==> ContrastColor(Lighten(hex, percent)) == "#000000"
  {
    LightenChannels(hex, percent);
  }

  // ---------------- the tag memo ----------------

  /** `predefinedColors`. */
  function Palette(): (p: seq<string>)
    ensures |p| == 12 && forall c <- p :: IsHexColor(c)
  {
    [ "#f97316", "#3b82f6", "#10b981", "#8b5cf6", "#ef4444", "#22c55e",
      "#f59e0b", "#6366f1", "#14b8a6", "#7c3aed", "#0ea5e9", "#facc15" ]
  }

  /** The grey of the "All" button: lighter in dark mode. */
  function NullTagColor(isDarkMode: bool): (c: string)
    ensures IsHexColor(c)
  {
    if isDarkMode then "#9CA3AF" else "#6B7280"
  }

  lemma LightGreyValue()
    ensures ParseHex("6B7280") == 0x6B7280
  {
    assert "6B7280"[..5] == "6B728" && "6B728"[..4] == "6B72" && "6B72"[..3] == "6B7";
    assert "6B7"[..2] == "6B" && "6B"[..1] == "6" && "6"[..0] == "";
    assert ParseHex("6") == 6;
    assert ParseHex("6B") == 0x6B;
    assert ParseHex("6B7") == 0x6B7;
    assert ParseHex("6B72") == 0x6B72;
    assert ParseHex("6B728") == 0x6B728;
  }

  lemma DarkGreyValue()
    ensures ParseHex("9CA3AF") == 0x9CA3AF
  {
    assert "9CA3AF"[..5] == "9CA3A" && "9CA3A"[..4] == "9CA3" && "9CA3"[..3] == "9CA";
    assert "9CA"[..2] == "9C" && "9C"[..1] == "9" && "9"[..0] == "";
    assert ParseHex("9") == 9;
    assert ParseHex("9C") == 0x9C;
    assert ParseHex("9CA") == 0x9CA;
    assert ParseHex("9CA3") == 0x9CA3;
    assert ParseHex("9CA3A") == 0x9CA3A;
  }

  /** The light-mode grey takes white text and the dark-mode grey black text. */
  lemma NullTagText()
    ensures ContrastColor(NullTagColor(false)) == "#FFFFFF"
    ensures ContrastColor(NullTagColor(true)) == "#000000"
  {
    var light, dark := NullTagColor(false), NullTagColor(true);
    assert light[1..] == "6B7280" && dark[1..] == "9CA3AF";
    LightGreyValue();
    DarkGreyValue();
  }

  /** `tagColorMap`: the colour given to each tag so far. */
  class TagColorMemo {
    var colors: map<string, string>

    predicate Valid()
      reads this
    {
      forall t <- colors :: IsHexColor(colors[t])
    }

    constructor ()
      ensures Valid() && colors == map[]
    {
      colors := map[];
    }

    /**
     * `getTagColor`.  The "All" button (`None`) is grey and leaves the memo alone.  A known
     * tag keeps its colour whatever the mode.  A new tag takes palette colour number
     * `size % 12`, lightened by 20 if dark mode is on at that moment, and is the only
     * entry added.  The text colour is always the contrast colour of the background.
     */
    method GetTagColor(tag: Option<string>, isDarkMode: bool) returns (bg: string, text: string)
      requires Valid()
      modifies this
      ensures Valid()
      ensures IsHexColor(bg) && text == ContrastColor(bg)
      ensures tag.None? ==> bg == NullTagColor(isDarkMode) && colors == old(colors)
      ensures tag.Some? && tag.value in old(colors) ==> bg == old(colors)[tag.value] && colors == old(colors)
      ensures tag.Some? && tag.value !in old(colors) ==>
        var base := Palette()[|old(colors)| % 12];
        bg == (if isDarkMode then Lighten(base, 20) else base)
        && colors == old(colors)[tag.value := bg]
    {
      if tag.None? {
        bg := NullTagColor(isDarkMode);
        text := ContrastColor(bg);
        return;
      }
      var t := tag.value;
      if t !in colors {
        var index := |colors| % 12;
        var baseColor := Palette()[index];
        assert baseColor in Palette();
        colors := colors[t := if isDarkMode then Lighten(baseColor, 20) else baseColor];
      }
      bg := colors[t];
      text := ContrastColor(bg);
    }
  }

  /** The memo only grows: an entry, once made, keeps its colour, and a call adds at most one entry. */
  method MemoOnlyGrows(memo: TagColorMemo, tag: Option<string>, isDarkMode: bool)
    requires memo.Valid()
    modifies memo
    ensures memo.Valid()
    ensures forall t <- old(memo.colors) :: t in memo.colors && memo.colors[t] == old(memo.colors)[t]
    ensures |memo.colors| <= |old(memo.colors)| + 1
    ensures forall t <- memo.colors :: t in old(memo.colors) || Some(t) == tag
  {
    var bg, text := memo.GetTagColor(tag, isDarkMode);
  }
}
