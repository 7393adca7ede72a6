/** Colour arithmetic of m_utils.js: `adjustColor` lightens or darkens a
    `#rrggbb` colour by a percentage, channel by channel.

    JavaScript computes `Math.round(Math.min(255, Math.max(0, c + c * p / 100)))`
    on doubles. With an integer percentage this is exact in integers:
    clamp `c * (100 + p)` to [0, 25500] and round half up, `(n + 50) / 100`.
    `ChannelIsRoundedClamp` proves that the integer form is the round-half-up
    of the real-valued clamp. */
module Color {
  import opened Common

  predicate IsHexDigit(c: char)
  {
    '0' <= c <= '9' || 'a' <= c <= 'f' || 'A' <= c <= 'F'
  }

  predicate IsLowerHexDigit(c: char)
  {
    '0' <= c <= '9' || 'a' <= c <= 'f'
  }

  /** parseInt of one hexadecimal digit, either case. */
  function HexValue(c: char): (v: nat)
    requires IsHexDigit(c)
    ensures v < 16
  {
    if '0' <= c <= '9' then c as int - '0' as int
    else if 'a' <= c <= 'f' then c as int - 'a' as int + 10
    else c as int - 'A' as int + 10
  }

  /** The lower-case digit Number.prototype.toString(16) writes for `v`. */
  function HexDigit(v: nat): (c: char)
    requires v < 16
    ensures IsLowerHexDigit(c) && IsHexDigit(c)
    ensures HexValue(c) == v
  {
    if v < 10 then ('0' as int + v) as char else ('a' as int + v - 10) as char
  }

  /** A colour as an `<input type="color">` or a theme literal writes it. */
  predicate IsHexColor(s: string)
  {
    |s| == 7 && s[0] == '#' && forall i :: 1 <= i < 7 ==> IsHexDigit(s[i])
  }

  /** A colour as `adjustColor` writes it: six lower-case hex digits. */
  predicate IsLowerHexColor(s: string)
  {
    |s| == 7 && s[0] == '#' && forall i :: 1 <= i < 7 ==> IsLowerHexDigit(s[i])
  }

  /** parseInt(hex.substring(1 + 2k, 3 + 2k), 16): channel k (red, green, blue). */
  function Channel(s: string, k: nat): (v: nat)
    requires IsHexColor(s) && k < 3
    ensures v < 256
  {
    HexValue(s[1 + 2 * k]) * 16 + HexValue(s[2 + 2 * k])
  }

  /** Number.prototype.toString(16) for an integer in [0, 255]: one digit
      below 16, two from there on, no leading zero. */
  function Radix16(v: nat): (r: string)
    requires v < 256
    ensures |r| == if v < 16 then 1 else 2
  {
    if v < 16 then [HexDigit(v)] else [HexDigit(v / 16), HexDigit(v % 16)]
  }

  /** `('0' + v.toString(16)).slice(-2)`: the last two characters after
      padding with one zero. For a byte this is its two hex digits. */
  function ToHex2(v: nat): (r: string)
    requires v < 256
    ensures r == [HexDigit(v / 16), HexDigit(v % 16)]
  {
    var padded := "0" + Radix16(v);
    padded[|padded| - 2..]
  }

  /** A byte split into its high and low hex digits is recovered from them. */
  lemma ByteDigits(v: nat)
    requires v < 256
    ensures HexValue(HexDigit(v / 16)) * 16 + HexValue(HexDigit(v % 16)) == v
  {
  }

  /** Two hex digits read as a byte split back into the same two values. */
  lemma SplitByte(hi: nat, lo: nat)
    requires hi < 16 && lo < 16
    ensures (hi * 16 + lo) / 16 == hi && (hi * 16 + lo) % 16 == lo
  {
  }

  /** A `#` followed by three two-character strings, character by character. */
  lemma HexPairs(hr: string, hg: string, hb: string)
    requires |hr| == 2 && |hg| == 2 && |hb| == 2
    ensures "#" + hr + hg + hb == ['#', hr[0], hr[1], hg[0], hg[1], hb[0], hb[1]]
  {
  }

  /** The template literal `#${toHex(r)}${toHex(g)}${toHex(b)}`. */
  function FormatColor(red: nat, green: nat, blue: nat): (r: string)
    requires red < 256 && green < 256 && blue < 256
    ensures IsLowerHexColor(r) && IsHexColor(r)
    ensures Channel(r, 0) == red && Channel(r, 1) == green && Channel(r, 2) == blue
  {
    var hr, hg, hb := ToHex2(red), ToHex2(green), ToHex2(blue);
    HexPairs(hr, hg, hb);
    ByteDigits(red);
    ByteDigits(green);
    ByteDigits(blue);
    "#" + hr + hg + hb
  }

  /** The formatted colour, character by character. */
  lemma FormatColorDigits(red: nat, green: nat, blue: nat)
    requires red < 256 && green < 256 && blue < 256
    ensures FormatColor(red, green, blue)
         == ['#', HexDigit(red / 16), HexDigit(red % 16), HexDigit(green / 16),
             HexDigit(green % 16), HexDigit(blue / 16), HexDigit(blue % 16)]
  {
    HexPairs(ToHex2(red), ToHex2(green), ToHex2(blue));
  }

  /** One adjusted channel: `c + c * p / 100`, clamped to [0, 255] and rounded
      half up, all in integers. */
  function AdjustChannel(c: nat, percent: int): (r: nat)
    ensures r <= 255
  {
    var n := c * (100 + percent);
    if n <= 0 then 0 else if n >= 25500 then 255 else (n + 50) / 100
  }

  /** The real number JavaScript clamps: min(255, max(0, c + c * p / 100)). */
  function ClampedReal(c: nat, percent: int): real
  {
    var x := c as real + c as real * percent as real / 100.0;
    if x < 0.0 then 0.0 else if x > 255.0 then 255.0 else x
  }

  lemma ProductAsReal(a: int, b: int)
    ensures (a * b) as real == a as real * b as real
  {
  }

  /** The integer channel is Math.round of the clamped real value: the unique
      integer `r` with `r - 1/2 <= x < r + 1/2`. */
  lemma ChannelIsRoundedClamp(c: nat, percent: int)
    ensures AdjustChannel(c, percent) as real - 0.5 <= ClampedReal(c, percent)
    ensures ClampedReal(c, percent) < AdjustChannel(c, percent) as real + 0.5
  {
    var n := c * (100 + percent);
    ProductAsReal(c, 100 + percent);
    var x := c as real + c as real * percent as real / 100.0;
    assert x == n as real / 100.0;
    if 0 < n < 25500 {
      var r := (n + 50) / 100;
      assert r * 100 <= n + 50 < r * 100 + 100;
    }
  }

  /** adjustColor(hex, percent): the colour with every channel scaled by
      `percent`, written as `#` and six lower-case hex digits. */
  function AdjustColor(hex: string, percent: int): (r: string)
    requires IsHexColor(hex)
    ensures IsLowerHexColor(r) && IsHexColor(r)
    ensures Channel(r, 0) == AdjustChannel(Channel(hex, 0), percent)
    ensures Channel(r, 1) == AdjustChannel(Channel(hex, 1), percent)
    ensures Channel(r, 2) == AdjustChannel(Channel(hex, 2), percent)
  {
    FormatColor(AdjustChannel(Channel(hex, 0), percent),
                AdjustChannel(Channel(hex, 1), percent),
                AdjustChannel(Channel(hex, 2), percent))
  }

  /** Channel `k` of the adjusted colour is the adjusted channel `k`. */
  lemma AdjustedChannel(hex: string, percent: int, k: nat)
    requires IsHexColor(hex) && k < 3
    ensures Channel(AdjustColor(hex, percent), k) == AdjustChannel(Channel(hex, k), percent)
  {
  }

  // ---------------------------------------------------------------------
  // Properties of the adjustment

  /** A zero percentage gives back the same colour, lower-cased. */
  lemma AdjustByZeroIsLowerCase(hex: string)
    requires IsHexColor(hex)
    ensures AdjustColor(hex, 0) == Lower(hex)
  {
    UnscaledDigits(hex);
    ReparsedDigits(hex);
  }

  /** The digits of the three channels of `hex`, re-emitted in lower case. */
  function ChannelDigits(hex: string): (r: string)
    requires IsHexColor(hex)
    ensures |r| == 7
  {
    var c0, c1, c2 := Channel(hex, 0), Channel(hex, 1), Channel(hex, 2);
    ['#', HexDigit(c0 / 16), HexDigit(c0 % 16), HexDigit(c1 / 16),
     HexDigit(c1 % 16), HexDigit(c2 / 16), HexDigit(c2 % 16)]
  }

  /** Adjusting by zero re-emits the parsed channels. */
  lemma UnscaledDigits(hex: string)
    requires IsHexColor(hex)
    ensures AdjustColor(hex, 0) == ChannelDigits(hex)
  {
    AdjustedDigits(hex, 0);
    UnscaledChannel(Channel(hex, 0));
    UnscaledChannel(Channel(hex, 1));
    UnscaledChannel(Channel(hex, 2));
  }

  /** Re-emitting the parsed channels lower-cases the colour. */
  lemma ReparsedDigits(hex: string)
    requires IsHexColor(hex)
    ensures ChannelDigits(hex) == Lower(hex)
  {
    RewrittenChannel(hex, 0);
    RewrittenChannel(hex, 1);
    RewrittenChannel(hex, 2);
    LowerHexColor(hex);
  }

  /** Lower-casing a colour, character by character. */
  lemma LowerHexColor(hex: string)
    requires IsHexColor(hex)
    ensures Lower(hex) == [hex[0], LowerChar(hex[1]), LowerChar(hex[2]), LowerChar(hex[3]),
                           LowerChar(hex[4]), LowerChar(hex[5]), LowerChar(hex[6])]
  {
  }

  /** The adjusted colour, character by character. */
  lemma AdjustedDigits(hex: string, percent: int)
    requires IsHexColor(hex)
    ensures (var c0, c1, c2 := AdjustChannel(Channel(hex, 0), percent),
                               AdjustChannel(Channel(hex, 1), percent),
                               AdjustChannel(Channel(hex, 2), percent);
             AdjustColor(hex, percent)
             == ['#', HexDigit(c0 / 16), HexDigit(c0 % 16), HexDigit(c1 / 16),
                 HexDigit(c1 % 16), HexDigit(c2 / 16), HexDigit(c2 % 16)])
  {
    FormatColorDigits(AdjustChannel(Channel(hex, 0), percent),
                      AdjustChannel(Channel(hex, 1), percent),
                      AdjustChannel(Channel(hex, 2), percent));
  }

  /** Re-emitting a parsed channel gives its two digits in lower case. */
  lemma RewrittenChannel(hex: string, k: nat)
    requires IsHexColor(hex) && k < 3
    ensures HexDigit(Channel(hex, k) / 16) == LowerChar(hex[1 + 2 * k])
    ensures HexDigit(Channel(hex, k) % 16) == LowerChar(hex[2 + 2 * k])
  {
    SplitByte(HexValue(hex[1 + 2 * k]), HexValue(hex[2 + 2 * k]));
    DigitOfValue(hex[1 + 2 * k]);
    DigitOfValue(hex[2 + 2 * k]);
  }

  /** Scaling by zero percent keeps a channel. */
  lemma UnscaledChannel(c: nat)
    requires c < 256
    ensures AdjustChannel(c, 0) == c
  {
  }

  /** Writing back the value of a digit gives the digit in lower case. */
  lemma DigitOfValue(c: char)
    requires IsHexDigit(c)
    ensures HexDigit(HexValue(c)) == LowerChar(c)
  {
  }

  /** A zero channel stays zero whatever the percentage. */
  lemma ZeroChannelStaysZero(percent: int)
    ensures AdjustChannel(0, percent) == 0
  {
  }

  /** Scaling by a factor of zero or less gives zero. */
  lemma NoFactorIsZero(c: nat, percent: int)
    requires percent <= -100
    ensures AdjustChannel(c, percent) == 0
  {
    assert c * (100 + percent) <= 0 by {
      assert 100 + percent <= 0;
    }
  }

  /** A percentage of -100 or less turns every colour black. */
  lemma FullDarkeningIsBlack(hex: string, percent: int)
    requires IsHexColor(hex) && percent <= -100
    ensures AdjustColor(hex, percent) == "#000000"
  {
    NoFactorIsZero(Channel(hex, 0), percent);
    NoFactorIsZero(Channel(hex, 1), percent);
    NoFactorIsZero(Channel(hex, 2), percent);
    AdjustedDigits(hex, percent);
    assert HexDigit(0) == '0';
  }

  /** A non-negative percentage never darkens a channel, and a non-positive
      one never lightens it. */
  lemma AdjustIsMonotone(c: nat, percent: int)
    requires c < 256
    ensures percent >= 0 ==> AdjustChannel(c, percent) >= c
    ensures percent <= 0 ==> AdjustChannel(c, percent) <= c
  {
    var n := c * (100 + percent);
    if percent >= 0 {
      assert n >= c * 100 by {
        assert c * (100 + percent) == c * 100 + c * percent;
        assert c * percent >= 0;
      }
    } else {
      assert n <= c * 100 by {
        assert c * (100 + percent) == c * 100 + c * percent;
        assert c * percent <= 0;
      }
    }
  }

  /** A larger percentage never gives a smaller channel. */
  lemma AdjustMonotoneInPercent(c: nat, p: int, q: int)
    requires p <= q
    ensures AdjustChannel(c, p) <= AdjustChannel(c, q)
  {
    assert c * (100 + p) <= c * (100 + q) by {
      assert c * (100 + q) - c * (100 + p) == c * (q - p);
      assert c * (q - p) >= 0;
    }
  }

  /** The worked example: mid grey lightened by half is `#c0c0c0`. */
  lemma GreyLightenedByHalf()
    ensures AdjustColor("#808080", 50) == "#c0c0c0"
  {
    var grey := "#808080";
    assert Channel(grey, 0) == 128 && Channel(grey, 1) == 128 && Channel(grey, 2) == 128;
    assert AdjustChannel(128, 50) == 192;
    AdjustedDigits(grey, 50);
    assert HexDigit(12) == 'c' && HexDigit(0) == '0';
  }

  /** Black stays black whatever the percentage. */
  lemma BlackStaysBlack(percent: int)
    ensures AdjustColor("#000000", percent) == "#000000"
  {
    var black := "#000000";
    assert Channel(black, 0) == 0 && Channel(black, 1) == 0 && Channel(black, 2) == 0;
    ZeroChannelStaysZero(percent);
    AdjustedDigits(black, percent);
    assert HexDigit(0) == '0';
  }
}
