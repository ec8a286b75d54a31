/** The colour engine shared by both ports of the shimmer label: reading a
    `#RRGGBB` string into channels, writing channels back out, and the
    triangular brightness ramp of the wave. The Go and the TypeScript code
    compute these identically; what differs between them (`lighten`) lives in
    the module of each port. */
module ColorEngine {
  import opened Numeric

  /** One colour as three integer channels. */
  datatype Rgb = Rgb(r: int, g: int, b: int)

  /** What a colour string of the wrong length reads as: #00D787. */
  const Fallback := Rgb(0, 215, 135)

  predicate IsByte(v: int) { 0 <= v <= 255 }

  predicate InRange(c: Rgb) { IsByte(c.r) && IsByte(c.g) && IsByte(c.b) }

  predicate IsHexDigit(ch: char) {
    '0' <= ch <= '9' || 'a' <= ch <= 'f' || 'A' <= ch <= 'F'
  }

  predicate IsUpperHexDigit(ch: char) {
    '0' <= ch <= '9' || 'A' <= ch <= 'F'
  }

  predicate AllHex(s: string) {
    forall i :: 0 <= i < |s| ==> IsHexDigit(s[i])
  }

  /** The value of one base-16 digit, in either case. */
  function DigitValue(ch: char): (v: int)
    requires IsHexDigit(ch)
    ensures 0 <= v < 16
  {
    if '0' <= ch <= '9' then ch as int - '0' as int
    else if 'a' <= ch <= 'f' then ch as int - 'a' as int + 10
    else ch as int - 'A' as int + 10
  }

  /** The upper-case digit for a value below 16. */
  function UpperDigit(v: int): (ch: char)
    requires 0 <= v < 16
    ensures IsUpperHexDigit(ch) && IsHexDigit(ch) && DigitValue(ch) == v
  {
    if v < 10 then ('0' as int + v) as char else ('A' as int + v - 10) as char
  }

  /** A hex digit written in upper case. */
  function ToUpperDigit(ch: char): (u: char)
    requires IsHexDigit(ch)
    ensures IsUpperHexDigit(u) && DigitValue(u) == DigitValue(ch)
  {
    if 'a' <= ch <= 'f' then (ch as int - 32) as char else ch
  }

  function Uppercased(h: string): (u: string)
    requires AllHex(h)
  {
    seq(|h|, i requires 0 <= i < |h| => ToUpperDigit(h[i]))
  }

  /** Removes one leading '#', as `strings.TrimPrefix(hex, "#")` and
      `hex.replace(/^#/, "")` do. */
  function TrimHash(s: string): (t: string)
    ensures s == t || s == "#" + t
    ensures |s| > 0 && s[0] == '#' ==> |t| == |s| - 1
  {
    if |s| > 0 && s[0] == '#' then s[1..] else s
  }

  /** The colour strings this model reads: any string whose length after the
      '#' is not six, or six hex digits. */
  predicate ParsableColor(s: string) {
    |TrimHash(s)| != 6 || AllHex(TrimHash(s))
  }

  /** The value of a two-digit hex numeral. */
  function PairValue(hi: char, lo: char): (v: int)
    requires IsHexDigit(hi) && IsHexDigit(lo)
    ensures IsByte(v)
  {
    16 * DigitValue(hi) + DigitValue(lo)
  }

  /** parseHexColor: channels of a "#RRGGBB" or "RRGGBB" string; any other
      length yields the fallback colour. */
  function ParseHexColor(s: string): (c: Rgb)
    requires ParsableColor(s)
    ensures InRange(c)
    ensures |TrimHash(s)| != 6 ==> c == Fallback
  {
    var h := TrimHash(s);
    if |h| != 6 then Fallback
    else Rgb(PairValue(h[0], h[1]), PairValue(h[2], h[3]), PairValue(h[4], h[5]))
  }

  /** The base-16 numeral of any `v` in upper case, without leading zeros:
      what `%X` and `toString(16).toUpperCase()` write before padding. */
  function HexNumeral(v: nat): (s: string)
    decreases v
  {
    if v < 16 then [UpperDigit(v)] else HexNumeral(v / 16) + [UpperDigit(v % 16)]
  }

  /** Left-pads to two characters with '0'. */
  function PadTwo(s: string): string {
    if |s| >= 2 then s else seq(2 - |s|, _ => '0') + s
  }

  /** One channel in [0, 255] as `%02X` (Go) or
      `toString(16).padStart(2, "0").toUpperCase()` (TypeScript) writes it:
      the high and the low nibble as upper-case digits. */
  function Channel(v: int): (s: string)
    requires IsByte(v)
    ensures |s| == 2 && IsUpperHexDigit(s[0]) && IsUpperHexDigit(s[1])
    ensures 16 * DigitValue(s[0]) + DigitValue(s[1]) == v
  {
    [UpperDigit(v / 16), UpperDigit(v % 16)]
  }

  /** formatHexColor / `fmt.Sprintf("#%02X%02X%02X", r, g, b)`. */
  function FormatHexColor(c: Rgb): (s: string)
    requires InRange(c)
    ensures |s| == 7 && s[0] == '#'
  {
    "#" + Channel(c.r) + Channel(c.g) + Channel(c.b)
  }

  /** The two-digit channel is the zero-padded base-16 numeral of the value. */
  lemma ChannelIsPaddedNumeral(v: int)
    requires IsByte(v)
    ensures Channel(v) == PadTwo(HexNumeral(v))
  {
    if v >= 16 {
      assert HexNumeral(v / 16) == [UpperDigit(v / 16)];
    }
  }

  /** A formatted in-range colour is '#' followed by six upper-case hex digits. */
  lemma FormatShape(c: Rgb)
    requires InRange(c)
    ensures var s := FormatHexColor(c);
      |s| == 7 && s[0] == '#' && forall i :: 1 <= i < 7 ==> IsUpperHexDigit(s[i])
  {
  }

  /** Reading back a two-digit numeral gives the channel. */
  lemma PairOfByte(v: int)
    requires IsByte(v)
    ensures PairValue(UpperDigit(v / 16), UpperDigit(v % 16)) == v
  {
  }

  /** Round trip: parsing what was formatted gives back the channels. */
  lemma ParseFormat(c: Rgb)
    requires InRange(c)
    ensures ParsableColor(FormatHexColor(c))
    ensures ParseHexColor(FormatHexColor(c)) == c
  {
    var s := FormatHexColor(c);
    assert TrimHash(s) == s[1..];
    assert s[1..] == [UpperDigit(c.r / 16), UpperDigit(c.r % 16),
                      UpperDigit(c.g / 16), UpperDigit(c.g % 16),
                      UpperDigit(c.b / 16), UpperDigit(c.b % 16)];
    PairOfByte(c.r);
    PairOfByte(c.g);
    PairOfByte(c.b);
  }

  /** Writing a digit's value back yields the digit in upper case. */
  lemma DigitRoundTrip(ch: char)
    requires IsHexDigit(ch)
    ensures UpperDigit(DigitValue(ch)) == ToUpperDigit(ch)
  {
  }

  /** The nibbles of a pair's value are the values of its two digits. */
  lemma PairNibbles(hi: char, lo: char)
    requires IsHexDigit(hi) && IsHexDigit(lo)
    ensures PairValue(hi, lo) / 16 == DigitValue(hi)
    ensures PairValue(hi, lo) % 16 == DigitValue(lo)
  {
  }

  /** Round trip the other way: formatting a parsed six-digit colour gives the
      digits back in upper case, with one '#' in front. */
  lemma FormatParse(s: string)
    requires |TrimHash(s)| == 6 && AllHex(TrimHash(s))
    ensures FormatHexColor(ParseHexColor(s)) == "#" + Uppercased(TrimHash(s))
  {
    var h := TrimHash(s);
    var c := ParseHexColor(s);
    PairNibbles(h[0], h[1]);
    PairNibbles(h[2], h[3]);
    PairNibbles(h[4], h[5]);
    forall i | 0 <= i < 6 ensures UpperDigit(DigitValue(h[i])) == ToUpperDigit(h[i]) {
      DigitRoundTrip(h[i]);
    }
    assert FormatHexColor(c) == "#" + Uppercased(h);
  }

  /** Only one '#' is removed: "##RRGGBB" is seven characters long after
      trimming and reads as the fallback colour. */
  lemma OnlyOneHashStripped(h: string)
    requires |h| == 6 && AllHex(h)
    ensures ParseHexColor("##" + h) == Fallback
    ensures ParseHexColor("#" + h) == ParseHexColor(h)
  {
    assert TrimHash("##" + h) == "#" + h;
    assert TrimHash("#" + h) == h;
  }

  /** The fallback colour writes out as #00D787. */
  lemma FallbackWritesOut()
    ensures FormatHexColor(Fallback) == "#00D787"
  {
    assert Channel(0) == "00" && Channel(215) == "D7" && Channel(135) == "87";
  }

  /** The number of colours in the wave: `max(waveWidth, 2)`. */
  function Steps(waveWidth: int): (n: int)
    ensures n >= 2 && n >= waveWidth && (n == waveWidth || n == 2)
  {
    if waveWidth < 2 then 2 else waveWidth
  }

  /** The lightening percentage of wave colour `i`: it rises linearly from 0
      at index 0 to `peak` at `steps / 2` and falls linearly after it. The
      source computes the ratio in floating point and truncates (Go) or
      floors (TypeScript) its product with `peak`; this is the same ratio in
      exact integer arithmetic. The product is never negative, so truncation
      and floor agree with `/`. */
  function WavePercent(steps: int, peak: int, i: int): (p: int)
    requires steps >= 2 && 0 <= peak && 0 <= i < steps
    ensures 0 <= p <= peak
  {
    var mid := steps / 2;
    if i <= mid then
      ScaledAtMost(i, peak, mid);
      (i * peak) / mid
    else
      ScaledAtMost(steps - 1 - i, peak, steps - 1 - mid);
      ((steps - 1 - i) * peak) / (steps - 1 - mid)
  }

  /** The divisor of the falling half is positive whenever that half is
      reached, and so is the divisor of the rising half. */
  lemma RampDivisorsPositive(steps: int, i: int)
    requires steps >= 2 && 0 <= i < steps
    ensures steps / 2 > 0
    ensures i > steps / 2 ==> steps - 1 - steps / 2 > 0
  {
  }

  /** The ramp starts at 0, reaches `peak` at the middle and stays in [0, peak]. */
  lemma RampBounds(steps: int, peak: int, i: int)
    requires steps >= 2 && 0 <= peak && 0 <= i < steps
    ensures WavePercent(steps, peak, 0) == 0
    ensures WavePercent(steps, peak, steps / 2) == peak
    ensures 0 <= WavePercent(steps, peak, i) <= peak
  {
    var mid := steps / 2;
    MulDivCancel(peak, mid);
    assert mid * peak == peak * mid;
    if i <= mid {
      ScaledAtMost(i, peak, mid);
    } else {
      ScaledAtMost(steps - 1 - i, peak, steps - 1 - mid);
    }
  }

  /** A percentage computed branch by branch, as the generator's loop does,
      is the ramp's value and lies in [0, peak]. */
  lemma RampStep(steps: int, peak: int, i: int, pct: int)
    requires steps >= 2 && 0 <= peak && 0 <= i < steps
    requires i <= steps / 2 ==> pct == (i * peak) / (steps / 2)
    requires i > steps / 2 ==> pct == ((steps - 1 - i) * peak) / (steps - 1 - steps / 2)
    ensures pct == WavePercent(steps, peak, i) && 0 <= pct <= peak
  {
    RampBounds(steps, peak, i);
  }

  /** Up to the middle the ramp never decreases. */
  lemma RampRises(steps: int, peak: int, i: int, j: int)
    requires steps >= 2 && 0 <= peak && 0 <= i <= j <= steps / 2
    ensures WavePercent(steps, peak, i) <= WavePercent(steps, peak, j)
  {
    MulMonotone(i, j, peak);
    DivMonotone(i * peak, j * peak, steps / 2);
  }

  /** From the middle on the ramp never increases. */
  lemma RampFalls(steps: int, peak: int, i: int, j: int)
    requires steps >= 2 && 0 <= peak && steps / 2 <= i <= j < steps
    ensures WavePercent(steps, peak, i) >= WavePercent(steps, peak, j)
  {
    var mid := steps / 2;
    if i == mid {
      RampBounds(steps, peak, j);
    } else {
      MulMonotone(steps - 1 - j, steps - 1 - i, peak);
      DivMonotone((steps - 1 - j) * peak, (steps - 1 - i) * peak, steps - 1 - mid);
    }
  }

  /** With an odd number of steps the ramp is a mirror image of itself. */
  lemma RampSymmetricWhenOdd(steps: int, peak: int, i: int)
    requires steps >= 2 && steps % 2 == 1 && 0 <= peak && 0 <= i < steps
    ensures WavePercent(steps, peak, i) == WavePercent(steps, peak, steps - 1 - i)
  {
  }

  /** With an even number of steps the ramp is not symmetric, whatever the
      positive peak: the middle colour is at the peak, but its mirror image
      one step before it is not. */
  lemma RampAsymmetricWhenEven(steps: int, peak: int)
    requires steps >= 2 && steps % 2 == 0 && 0 < peak
    ensures WavePercent(steps, peak, steps / 2) == peak
    ensures WavePercent(steps, peak, steps - 1 - steps / 2) < peak
  {
    var mid := steps / 2;
    RampBounds(steps, peak, 0);
    assert steps - 1 - mid == mid - 1;
    var q := ((mid - 1) * peak) / mid;
    assert mid * q <= (mid - 1) * peak;
    assert (mid - 1) * peak == mid * peak - peak;
    if q >= peak {
      MulMonotone(peak, q, mid);
    }
  }

  /** At the default width of 8 and the default peak of 90 the percentages
      are 0, 22, 45, 67, 90, 60, 30, 0: they rise in quarters of the peak
      and fall in thirds. */
  lemma DefaultRamp()
    ensures seq(8, i requires 0 <= i < 8 => WavePercent(8, 90, i)) == [0, 22, 45, 67, 90, 60, 30, 0]
    ensures WavePercent(8, 90, 2) != WavePercent(8, 90, 5)
  {
  }

  /** The last colour is back at 0 from three steps on; with two steps the
      wave is only [0, peak] and its last colour is the brightest. */
  lemma RampLast(steps: int, peak: int)
    requires steps >= 2 && 0 <= peak
    ensures steps >= 3 ==> WavePercent(steps, peak, steps - 1) == 0
    ensures steps == 2 ==> WavePercent(steps, peak, 1) == peak
  {
    if steps == 2 {
      RampBounds(steps, peak, 1);
    }
  }
}
