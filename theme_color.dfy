/**
 * The colour helpers of the theme store (src/stores/theme.ts): parsing a
 * `#RRGGBB` colour, the multiplicative darken and the derived `rgba(...)`
 * overlay tint.
 */
module ThemeColor {
  import opened Options
  import opened NumberText

  /** The three channels `hexToRgb` returns. */
  datatype Rgb = Rgb(r: nat, g: nat, b: nat)

  predicate InByteRange(c: Rgb) {
    c.r <= 255 && c.g <= 255 && c.b <= 255
  }

  /**
   * The language of `/^#?([a-f\d]{2})([a-f\d]{2})([a-f\d]{2})$/i`: an
   * optional `#` followed by exactly six hex digits of either case.
   */
  predicate IsHexColor(s: string) {
    || (|s| == 6 && AllHexDigits(s))
    || (|s| == 7 && s[0] == '#' && AllHexDigits(s[1..]))
  }

  /** The text after an optional leading `#`. */
  function StripHash(s: string): string {
    if |s| > 0 && s[0] == '#' then s[1..] else s
  }

  /** `Number.parseInt(ab, 16)` of a two-digit capture group (see HexByteIsParseInt). */
  function HexByte(a: char, b: char): (v: nat)
    requires IsHexDigit(a) && IsHexDigit(b)
    ensures v <= 255
  {
    HexValue(a) * 16 + HexValue(b)
  }

  /** HexByte reads two digits the way `Number.parseInt(_, 16)` does. */
  lemma HexByteIsParseInt(a: char, b: char)
    requires IsHexDigit(a) && IsHexDigit(b)
    ensures HexByte(a, b) == ParseRadix([a, b], 16)
  {
    TwoHexDigitsBound(a, b);
  }

  /** `hexToRgb`: the channels of a `#?RRGGBB` colour, or `None` (the source's `null`). */
  function HexToRgb(s: string): (res: Option<Rgb>)
    ensures res.Some? <==> IsHexColor(s)
    ensures res.Some? ==> InByteRange(res.value)
  {
    var d := StripHash(s);
    if |d| == 6 && AllHexDigits(d) then
      Some(Rgb(HexByte(d[0], d[1]), HexByte(d[2], d[3]), HexByte(d[4], d[5])))
    else
      None
  }

  /** The two lower-case digits of a byte: `n.toString(16).padStart(2, '0')` (see ChannelHex). */
  function Hex2(n: nat): (h: string)
    requires n <= 255
    ensures |h| == 2
  {
    [DigitChar(n / 16), DigitChar(n % 16)]
  }

  /** `c.toString(16).padStart(2, '0')`, as the source writes it. */
  function ChannelHex(c: nat): string {
    PadStart(ToRadix(c, 16), 2, '0')
  }

  /** For a byte, the source's `toString(16).padStart(2, '0')` is Hex2. */
  lemma ChannelHexIsHex2(n: nat)
    requires n <= 255
    ensures ChannelHex(n) == Hex2(n)
  {
    ByteHex(n);
  }

  /** The `#rrggbb` text that `darkenColor` builds from three byte channels. */
  function EncodeRgb(c: Rgb): (e: string)
    requires InByteRange(c)
    ensures |e| == 7 && e[0] == '#'
  {
    "#" + Hex2(c.r) + Hex2(c.g) + Hex2(c.b)
  }

  /** A colour written the way `darkenColor` writes one: `#` and six lower-case digits. */
  predicate IsLowerHexColor(s: string) {
    |s| == 7 && s[0] == '#' && forall i :: 1 <= i < 7 ==> IsLowerHexDigit(s[i])
  }

  /** Lower-casing of a string of hex digits. */
  function LowerHexString(s: string): (l: string)
    requires AllHexDigits(s)
    ensures |l| == |s|
    ensures forall i :: 0 <= i < |s| ==> l[i] == LowerHexDigit(s[i])
  {
    if s == [] then [] else [LowerHexDigit(s[0])] + LowerHexString(s[1..])
  }

  /** The source's `darken`: Math.max(0, Math.floor(c * (1 - percent / 100))), on integers. */
  function DarkenChannel(c: nat, percent: int): nat {
    var v := c * (100 - percent) / 100;
    if v < 0 then 0 else v
  }

  function DarkenRgb(c: Rgb, percent: int): Rgb {
    Rgb(DarkenChannel(c.r, percent), DarkenChannel(c.g, percent), DarkenChannel(c.b, percent))
  }

  /** `darkenColor(hex, percent)`. */
  function DarkenColor(hex: string, percent: int): (res: string)
    requires 0 <= percent <= 100
    ensures !IsHexColor(hex) ==> res == hex
  {
    match HexToRgb(hex)
    case None => hex
    case Some(c) =>
      DarkenRgbBounds(c, percent);
      EncodeRgb(DarkenRgb(c, percent))
  }

  /** The `--primary-light` overlay tint: `rgba(${r}, ${g}, ${b}, 0.2)`. */
  function RgbaTint(c: Rgb): (t: string)
    ensures |t| >= 17 && t[..5] == "rgba(" && t[|t| - 6..] == ", 0.2)"
  {
    "rgba(" + ToRadix(c.r, 10) + ", " + ToRadix(c.g, 10) + ", " + ToRadix(c.b, 10) + ", 0.2)"
  }

  // ---------------------------------------------------------------------
  // Properties
  // ---------------------------------------------------------------------

  /** A darkened channel lies between 0 and the channel itself, for a percent in [0, 100]. */
  lemma DarkenChannelBounds(c: nat, percent: int)
    requires 0 <= percent <= 100
    ensures DarkenChannel(c, percent) <= c
    ensures percent == 0 ==> DarkenChannel(c, percent) == c
  {
    assert c * (100 - percent) <= c * 100;
  }

  lemma DarkenRgbBounds(c: Rgb, percent: int)
    requires 0 <= percent <= 100
    ensures var d := DarkenRgb(c, percent); d.r <= c.r && d.g <= c.g && d.b <= c.b
    ensures InByteRange(c) ==> InByteRange(DarkenRgb(c, percent))
  {
    DarkenChannelBounds(c.r, percent);
    DarkenChannelBounds(c.g, percent);
    DarkenChannelBounds(c.b, percent);
  }

  /** A percent of 100 or more blacks a channel out. */
  lemma DarkenChannelFull(c: nat, percent: int)
    requires percent >= 100
    ensures DarkenChannel(c, percent) == 0
  {
    assert c * (100 - percent) <= 0;
  }

  /** A larger percent never gives a larger channel. */
  lemma DarkenChannelMonotone(c: nat, p1: int, p2: int)
    requires p1 <= p2
    ensures DarkenChannel(c, p2) <= DarkenChannel(c, p1)
  {
    assert c * (100 - p2) <= c * (100 - p1);
  }

  /** Encoding byte-range channels gives a lower-case colour that parses back to them. */
  lemma EncodeRgbRoundTrip(c: Rgb)
    requires InByteRange(c)
    ensures IsLowerHexColor(EncodeRgb(c))
    ensures HexToRgb(EncodeRgb(c)) == Some(c)
  {
    var e := EncodeRgb(c);
    var d := e[1..];
    assert StripHash(e) == d;
    assert d == Hex2(c.r) + Hex2(c.g) + Hex2(c.b);
    assert d[0] == DigitChar(c.r / 16) && d[1] == DigitChar(c.r % 16);
    assert d[2] == DigitChar(c.g / 16) && d[3] == DigitChar(c.g % 16);
    assert d[4] == DigitChar(c.b / 16) && d[5] == DigitChar(c.b % 16);
    assert AllHexDigits(d);
  }

  /** The two digits of a parsed byte, re-encoded, are the lower-case forms of the two it was parsed from. */
  lemma Hex2OfHexByte(a: char, b: char)
    requires IsHexDigit(a) && IsHexDigit(b)
    ensures Hex2(HexByte(a, b)) == [LowerHexDigit(a), LowerHexDigit(b)]
  {
    var v := HexByte(a, b);
    assert v / 16 == HexValue(a) && v % 16 == HexValue(b);
  }

  lemma LowerHexStringSix(d: string)
    requires |d| == 6 && AllHexDigits(d)
    ensures LowerHexString(d) == [LowerHexDigit(d[0]), LowerHexDigit(d[1])]
                                 + [LowerHexDigit(d[2]), LowerHexDigit(d[3])]
                                 + [LowerHexDigit(d[4]), LowerHexDigit(d[5])]
  {
  }

  /** Encoding the channels parsed from six hex digits gives those digits in lower case. */
  lemma EncodeParsedDigits(d: string)
    requires |d| == 6 && AllHexDigits(d)
    ensures EncodeRgb(Rgb(HexByte(d[0], d[1]), HexByte(d[2], d[3]), HexByte(d[4], d[5]))) == "#" + LowerHexString(d)
  {
    Hex2OfHexByte(d[0], d[1]);
    Hex2OfHexByte(d[2], d[3]);
    Hex2OfHexByte(d[4], d[5]);
    LowerHexStringSix(d);
    var x, y, z := Hex2(HexByte(d[0], d[1])), Hex2(HexByte(d[2], d[3])), Hex2(HexByte(d[4], d[5]));
    assert "#" + x + y + z == "#" + (x + y + z);
  }

  /** Parsing and re-encoding a colour yields its lower-case form with a `#`. */
  lemma HexToRgbEncode(s: string)
    requires IsHexColor(s)
    ensures EncodeRgb(HexToRgb(s).value) == "#" + LowerHexString(StripHash(s))
  {
    var d := StripHash(s);
    assert |d| == 6 && AllHexDigits(d);
    assert HexToRgb(s).value == Rgb(HexByte(d[0], d[1]), HexByte(d[2], d[3]), HexByte(d[4], d[5]));
    EncodeParsedDigits(d);
  }

  /**
   * For a valid colour and a percent in [0, 100], `darkenColor` returns `#`
   * and six lower-case hex digits whose channels are the darkened channels,
   * none of them above the original.
   */
  lemma DarkenColorValid(hex: string, percent: int)
    requires IsHexColor(hex) && 0 <= percent <= 100
    ensures IsLowerHexColor(DarkenColor(hex, percent))
    ensures HexToRgb(DarkenColor(hex, percent)) == Some(DarkenRgb(HexToRgb(hex).value, percent))
    ensures var d := HexToRgb(DarkenColor(hex, percent)).value;
            var c := HexToRgb(hex).value;
            d.r <= c.r && d.g <= c.g && d.b <= c.b
  {
    var c := HexToRgb(hex).value;
    DarkenRgbBounds(c, percent);
    EncodeRgbRoundTrip(DarkenRgb(c, percent));
  }

  /** Darkening by 0 percent gives the lower-case form of the input, with a `#`. */
  lemma DarkenColorZero(hex: string)
    requires IsHexColor(hex)
    ensures DarkenColor(hex, 0) == "#" + LowerHexString(StripHash(hex))
  {
    var c := HexToRgb(hex).value;
    DarkenRgbBounds(c, 0);
    assert DarkenRgb(c, 0) == c;
    HexToRgbEncode(hex);
  }

  /** Darkening by 100 percent gives black. */
  lemma DarkenColorFull(hex: string)
    requires IsHexColor(hex)
    ensures DarkenColor(hex, 100) == "#000000"
  {
    var c := HexToRgb(hex).value;
    DarkenChannelFull(c.r, 100);
    DarkenChannelFull(c.g, 100);
    DarkenChannelFull(c.b, 100);
    assert DarkenRgb(c, 100) == Rgb(0, 0, 0);
    assert Hex2(0) == "00";
  }

  /** A larger percent never yields a larger channel in the colour `darkenColor` returns. */
  lemma DarkenColorMonotone(hex: string, p1: int, p2: int)
    requires IsHexColor(hex) && 0 <= p1 <= p2 <= 100
    ensures HexToRgb(DarkenColor(hex, p1)).Some? && HexToRgb(DarkenColor(hex, p2)).Some?
    ensures var d1 := HexToRgb(DarkenColor(hex, p1)).value;
            var d2 := HexToRgb(DarkenColor(hex, p2)).value;
            d2.r <= d1.r && d2.g <= d1.g && d2.b <= d1.b
  {
    var c := HexToRgb(hex).value;
    DarkenColorValid(hex, p1);
    DarkenColorValid(hex, p2);
    DarkenChannelMonotone(c.r, p1, p2);
    DarkenChannelMonotone(c.g, p1, p2);
    DarkenChannelMonotone(c.b, p1, p2);
  }

  lemma CoralChannels()
    ensures HexToRgb("#FF7E6A") == Some(Rgb(255, 126, 106))
  {
    var d := StripHash("#FF7E6A");
    assert d == "FF7E6A";
    assert HexValue('F') == 15 && HexValue('7') == 7 && HexValue('E') == 14 && HexValue('6') == 6 && HexValue('A') == 10;
  }

  lemma CoralDarkDigits()
    ensures DarkenRgb(Rgb(255, 126, 106), 15) == Rgb(216, 107, 90)
    ensures DarkenRgb(Rgb(255, 126, 106), 30) == Rgb(178, 88, 74)
    ensures EncodeRgb(Rgb(216, 107, 90)) == "#d86b5a"
    ensures EncodeRgb(Rgb(178, 88, 74)) == "#b2584a"
  {
    assert Hex2(216) == "d8" && Hex2(107) == "6b" && Hex2(90) == "5a";
    assert Hex2(178) == "b2" && Hex2(88) == "58" && Hex2(74) == "4a";
  }

  /** The default coral darkened by 15 percent, the store's `--primary-dark`. */
  lemma DarkenDefaultCoral15()
    ensures DarkenColor("#FF7E6A", 15) == "#d86b5a"
  {
    CoralChannels();
    CoralDarkDigits();
  }

  /** The default coral darkened by 30 percent, the store's `--primary-darker`. */
  lemma DarkenDefaultCoral30()
    ensures DarkenColor("#FF7E6A", 30) == "#b2584a"
  {
    CoralChannels();
    CoralDarkDigits();
  }
}
