/** The Go shimmer label (shimmer.go). The model is a value: `Update`,
    `SetText`, `SetLoading` and `Init` return a new model or a command, as the
    value receivers of the source do; each option is a function from model to
    model. `New`, `generateWaveColors` and `View` loop and are methods. */
module Shimmer {
  import opened Numeric
  import opened ColorEngine

  /** Default configuration (the interval in milliseconds). */
  const DefaultInterval := 50
  const DefaultPeakLight := 90
  const DefaultWaveWidth := 8
  const DefaultWavePause := 8

  /** Right: the wave moves left to right (the default); Left: right to left. */
  datatype Direction = Right | Left

  datatype Model = Model(
    text: string,              // code points of the label
    baseColor: string,         // "#RRGGBB"
    isLoading: bool,
    position: int,
    waveColors: seq<string>,
    interval: int,
    peakLight: int,
    waveWidth: int,
    wavePause: int,
    direction: Direction)

  /** The messages `Update` tells apart: a shimmer tick, or anything else. */
  datatype Msg = TickMsg | OtherMsg

  /** The command handed back to the event loop: none, or one tick after `delay`. */
  datatype Cmd = NoCmd | TickAfter(delay: int)

  /** One piece of rendered output: some text and the foreground colour it is drawn in. */
  datatype Segment = Segment(text: string, color: string)

  /** The options the package offers to `New`. */
  datatype Option =
    | WithInterval(d: int)
    | WithPeakLight(percent: int)
    | WithWaveWidth(width: int)
    | WithWavePause(pause: int)
    | WithDirection(dir: Direction)

  /** The configuration field each option writes. */
  datatype Field = IntervalField | PeakLightField | WaveWidthField | WavePauseField | DirectionField

  function Sets(opt: Option): Field {
    match opt
    case WithInterval(_) => IntervalField
    case WithPeakLight(_) => PeakLightField
    case WithWaveWidth(_) => WaveWidthField
    case WithWavePause(_) => WavePauseField
    case WithDirection(_) => DirectionField
  }

  /** A peak lightness forced into [0, 100]. */
  function ClampPeakLight(percent: int): (p: int)
    ensures 0 <= p <= 100
    ensures 0 <= percent <= 100 ==> p == percent
    ensures percent < 0 ==> p == 0
    ensures percent > 100 ==> p == 100
  {
    if percent < 0 then 0 else if percent > 100 then 100 else percent
  }

  /** A wave width of at least 2. */
  function ClampWaveWidth(width: int): (w: int)
    ensures w >= 2
    ensures width >= 2 ==> w == width
    ensures width < 2 ==> w == 2
  {
    if width < 2 then 2 else width
  }

  /** A wave pause of at least 0. */
  function ClampWavePause(pause: int): (p: int)
    ensures p >= 0
    ensures pause >= 0 ==> p == pause
    ensures pause < 0 ==> p == 0
  {
    if pause < 0 then 0 else pause
  }

  /** What one option does to the model under construction: it writes its
      own field, clamped, and nothing else. */
  function Apply(opt: Option, m: Model): (r: Model)
    ensures r.text == m.text && r.baseColor == m.baseColor && r.isLoading == m.isLoading
    ensures r.position == m.position && r.waveColors == m.waveColors
    ensures Sets(opt) != IntervalField ==> r.interval == m.interval
    ensures Sets(opt) != PeakLightField ==> r.peakLight == m.peakLight
    ensures Sets(opt) != WaveWidthField ==> r.waveWidth == m.waveWidth
    ensures Sets(opt) != WavePauseField ==> r.wavePause == m.wavePause
    ensures Sets(opt) != DirectionField ==> r.direction == m.direction
    ensures opt.WithInterval? ==> r.interval == opt.d
    ensures opt.WithPeakLight? ==> r.peakLight == ClampPeakLight(opt.percent)
    ensures opt.WithWaveWidth? ==> r.waveWidth == ClampWaveWidth(opt.width)
    ensures opt.WithWavePause? ==> r.wavePause == ClampWavePause(opt.pause)
    ensures opt.WithDirection? ==> r.direction == opt.dir
  {
    match opt
    case WithInterval(d) => m.(interval := d)
    case WithPeakLight(percent) => m.(peakLight := ClampPeakLight(percent))
    case WithWaveWidth(width) => m.(waveWidth := ClampWaveWidth(width))
    case WithWavePause(pause) => m.(wavePause := ClampWavePause(pause))
    case WithDirection(dir) => m.(direction := dir)
  }

  /** `k` is the last option in `opts` that writes field `f`. */
  predicate LastSetter(opts: seq<Option>, f: Field, k: int) {
    0 <= k < |opts| && Sets(opts[k]) == f && forall j :: k < j < |opts| ==> Sets(opts[j]) != f
  }

  /** No option in `opts` writes field `f`. */
  predicate NoSetter(opts: seq<Option>, f: Field) {
    forall j :: 0 <= j < |opts| ==> Sets(opts[j]) != f
  }

  /** Field `f` of `m` holds its default value. */
  predicate HoldsDefault(m: Model, f: Field) {
    match f
    case IntervalField => m.interval == DefaultInterval
    case PeakLightField => m.peakLight == DefaultPeakLight
    case WaveWidthField => m.waveWidth == DefaultWaveWidth
    case WavePauseField => m.wavePause == DefaultWavePause
    case DirectionField => m.direction == Right
  }

  /** The field that `opt` writes holds the value `opt` writes there. */
  predicate HoldsOption(m: Model, opt: Option) {
    match opt
    case WithInterval(d) => m.interval == d
    case WithPeakLight(percent) => m.peakLight == ClampPeakLight(percent)
    case WithWaveWidth(width) => m.waveWidth == ClampWaveWidth(width)
    case WithWavePause(pause) => m.wavePause == ClampWavePause(pause)
    case WithDirection(dir) => m.direction == dir
  }

  /** Field `f` of `m` is what `opts` leave there: the value written by the
      last option that writes `f`, or the default when no option does. */
  ghost predicate FieldConfigured(m: Model, opts: seq<Option>, f: Field) {
    && (NoSetter(opts, f) ==> HoldsDefault(m, f))
    && (forall k | LastSetter(opts, f, k) :: HoldsOption(m, opts[k]))
  }

  /** The whole configuration of `m` is what `opts` leave behind. */
  ghost predicate Configured(m: Model, opts: seq<Option>) {
    forall f: Field :: FieldConfigured(m, opts, f)
  }

  /** Extending the option list by one: the new option is the last writer of
      its own field, and the last writers of the other fields stay. */
  lemma LastSetterStep(opts: seq<Option>, i: int, f: Field, k: int)
    requires 0 <= i < |opts|
    ensures Sets(opts[i]) == f ==> (LastSetter(opts[..i + 1], f, k) <==> k == i)
    ensures Sets(opts[i]) != f ==> (LastSetter(opts[..i + 1], f, k) <==> LastSetter(opts[..i], f, k))
    ensures Sets(opts[i]) != f ==> (NoSetter(opts[..i + 1], f) <==> NoSetter(opts[..i], f))
  {
    var pre, post := opts[..i], opts[..i + 1];
    assert post[i] == opts[i];
    assert forall j :: 0 <= j < i ==> post[j] == pre[j];
    if Sets(opts[i]) != f {
      if LastSetter(pre, f, k) {
        assert LastSetter(post, f, k);
      }
      if LastSetter(post, f, k) {
        assert k < i;
        assert LastSetter(pre, f, k);
      }
      if NoSetter(pre, f) {
        forall j | 0 <= j < i + 1 ensures Sets(post[j]) != f {
          if j < i { assert post[j] == pre[j]; }
        }
      }
    }
  }

  /** Applying the next option keeps field `f` configured by the options so far. */
  lemma FieldConfiguredStep(m: Model, opts: seq<Option>, i: int, f: Field)
    requires 0 <= i < |opts| && FieldConfigured(m, opts[..i], f)
    ensures FieldConfigured(Apply(opts[i], m), opts[..i + 1], f)
  {
    var r := Apply(opts[i], m);
    var pre, post := opts[..i], opts[..i + 1];
    assert post[i] == opts[i];
    if Sets(opts[i]) == f {
      assert !NoSetter(post, f);
      forall k | LastSetter(post, f, k) ensures HoldsOption(r, post[k]) {
        LastSetterStep(opts, i, f, k);
      }
    } else {
      LastSetterStep(opts, i, f, 0);
      assert HoldsDefault(r, f) == HoldsDefault(m, f);
      forall k | LastSetter(post, f, k) ensures HoldsOption(r, post[k]) {
        LastSetterStep(opts, i, f, k);
        assert post[k] == pre[k];
      }
    }
  }

  /** Applying the next option keeps the model configured by the options so far. */
  lemma ConfiguredStep(m: Model, opts: seq<Option>, i: int)
    requires 0 <= i < |opts| && Configured(m, opts[..i])
    ensures Configured(Apply(opts[i], m), opts[..i + 1])
  {
    var r, post := Apply(opts[i], m), opts[..i + 1];
    forall f: Field ensures FieldConfigured(r, post, f) {
      FieldConfiguredStep(m, opts, i, f);
    }
  }

  /** Wave colours, lightness and position fields hold their ranges, the wave
      matches the configuration, and the base colour can be read. `New`
      establishes this and every operation keeps it. */
  predicate Valid(m: Model) {
    && 0 <= m.peakLight <= 100
    && m.waveWidth >= 2
    && m.wavePause >= 0
    && m.position >= 0
    && ParsableColor(m.baseColor)
    && m.waveColors == WaveColors(m.baseColor, m.waveWidth, m.peakLight)
  }

  /** Length of one cycle of the animation: the text, the wave, then the pause. */
  function TotalLength(m: Model): int {
    |m.text| + |m.waveColors| + m.wavePause
  }

  predicate InCycle(m: Model) {
    0 <= m.position < TotalLength(m)
  }

  /** The cycle length of a valid model is at least 2, so it never divides by zero. */
  lemma TotalLengthAtLeastTwo(m: Model)
    requires Valid(m)
    ensures TotalLength(m) >= 2
    ensures |m.waveColors| == m.waveWidth
  {
  }

  /** lighten: blends one channel toward 255 by `percent` of the remaining
      distance, with Go's truncating integer division, capped at 255. */
  function Lighten(value: int, percent: int): (r: int)
    ensures r <= 255
  {
    var result := value + TruncDiv((255 - value) * percent, 100);
    if result > 255 then 255 else result
  }

  /** A channel lightened by a percentage in [0, 100] or beyond stays a byte
      and never gets darker; 0% leaves it alone and 100% makes it white. */
  lemma LightenRange(value: int, percent: int)
    requires IsByte(value) && 0 <= percent
    ensures value <= Lighten(value, percent) <= 255
    ensures percent == 0 ==> Lighten(value, percent) == value
    ensures percent == 100 ==> Lighten(value, percent) == 255
  {
    MulMonotone(0, 255 - value, percent);
    MulDivCancel(255 - value, 100);
  }

  /** A larger percentage never gives a darker channel. */
  lemma LightenMonotone(value: int, p: int, q: int)
    requires IsByte(value) && 0 <= p <= q
    ensures Lighten(value, p) <= Lighten(value, q)
  {
    MulMonotone(p, q, 255 - value);
    assert (255 - value) * p == p * (255 - value);
    assert (255 - value) * q == q * (255 - value);
    DivMonotone((255 - value) * p, (255 - value) * q, 100);
  }

  /** The three channels lightened by the same percentage. */
  function LightenRgb(c: Rgb, pct: int): (l: Rgb)
    requires InRange(c) && pct >= 0
    ensures InRange(l)
    ensures pct == 0 ==> l == c
    ensures pct == 100 ==> l == Rgb(255, 255, 255)
  {
    LightenRange(c.r, pct);
    LightenRange(c.g, pct);
    LightenRange(c.b, pct);
    Rgb(Lighten(c.r, pct), Lighten(c.g, pct), Lighten(c.b, pct))
  }

  /** Wave colour `i` of `steps`: the base lightened by the ramp percentage, formatted. */
  function WaveColor(base: Rgb, steps: int, peak: int, i: int): (color: string)
    requires InRange(base) && steps >= 2 && 0 <= peak && 0 <= i < steps
    ensures |color| == 7 && color[0] == '#'
  {
    FormatHexColor(LightenRgb(base, WavePercent(steps, peak, i)))
  }

  /** The wave generated from a base colour, a width and a peak lightness. */
  function WaveColors(baseColor: string, waveWidth: int, peak: int): (w: seq<string>)
    requires ParsableColor(baseColor) && 0 <= peak
    ensures |w| == Steps(waveWidth)
  {
    var steps := Steps(waveWidth);
    seq(steps, i requires 0 <= i < steps => WaveColor(ParseHexColor(baseColor), steps, peak, i))
  }

  /** A buffer holding wave colour `k` at every index `k` of the right
      length is the wave. */
  lemma FilledBufferIsWave(buf: seq<string>, baseColor: string, waveWidth: int, peak: int)
    requires ParsableColor(baseColor) && 0 <= peak && |buf| == Steps(waveWidth)
    requires forall k :: 0 <= k < |buf| ==>
      buf[k] == WaveColor(ParseHexColor(baseColor), Steps(waveWidth), peak, k)
    ensures buf == WaveColors(baseColor, waveWidth, peak)
  {
  }

  /** generateWaveColors: fills a buffer of `max(waveWidth, 2)` colours. */
  method GenerateWaveColors(m: Model) returns (colors: seq<string>)
    requires ParsableColor(m.baseColor) && 0 <= m.peakLight
    ensures colors == WaveColors(m.baseColor, m.waveWidth, m.peakLight)
  {
    var base, peak, width := m.baseColor, m.peakLight, m.waveWidth;
    var c := ParseHexColor(base);
    var steps := Steps(width);
    var buf := new string[steps];
    for i := 0 to steps
      invariant forall k :: 0 <= k < i ==> buf[k] == WaveColor(c, steps, peak, k)
    {
      buf[i] := WaveStep(c, steps, peak, i);
    }
    colors := buf[..];
    FilledBufferIsWave(colors, base, width, peak);
  }

  /** One pass of generateWaveColors' loop: the ramp percentage of colour
      `i`, then the three lightened channels formatted as `#%02X%02X%02X`. */
  method WaveStep(c: Rgb, steps: int, peak: int, i: int) returns (color: string)
    requires InRange(c) && steps >= 2 && 0 <= peak && 0 <= i < steps
    ensures color == WaveColor(c, steps, peak, i)
  {
    var mid := steps / 2;
    var pct;
    if i <= mid {
      pct := (i * peak) / mid;
    } else {
      pct := ((steps - 1 - i) * peak) / (steps - 1 - mid);
    }
    RampStep(steps, peak, i, pct);
    color := FormatHexColor(LightenRgb(c, pct));
  }

  /** Each wave colour, read back, is the base lightened by its ramp percentage. */
  lemma WaveColorReadsBack(c: Rgb, steps: int, peak: int, i: int)
    requires InRange(c) && steps >= 2 && 0 <= peak && 0 <= i < steps
    ensures WavePercent(steps, peak, i) >= 0
    ensures ParsableColor(WaveColor(c, steps, peak, i))
    ensures ParseHexColor(WaveColor(c, steps, peak, i)) == LightenRgb(c, WavePercent(steps, peak, i))
  {
    RampBounds(steps, peak, i);
    ParseFormat(LightenRgb(c, WavePercent(steps, peak, i)));
  }

  /** The wave has `max(waveWidth, 2)` colours; each one, read back, is the
      base lightened by the ramp percentage; the first is lightened by 0%,
      so it is the parsed base written back out as upper-case `#RRGGBB`. */
  lemma WaveColorsShape(baseColor: string, waveWidth: int, peak: int, i: int)
    requires ParsableColor(baseColor) && 0 <= peak && 0 <= i < Steps(waveWidth)
    ensures |WaveColors(baseColor, waveWidth, peak)| == Steps(waveWidth)
    ensures WaveColors(baseColor, waveWidth, peak)[0] == FormatHexColor(ParseHexColor(baseColor))
    ensures WavePercent(Steps(waveWidth), peak, i) >= 0
    ensures ParsableColor(WaveColors(baseColor, waveWidth, peak)[i])
    ensures ParseHexColor(WaveColors(baseColor, waveWidth, peak)[i])
         == LightenRgb(ParseHexColor(baseColor), WavePercent(Steps(waveWidth), peak, i))
  {
    var c := ParseHexColor(baseColor);
    var steps := Steps(waveWidth);
    var w := WaveColors(baseColor, waveWidth, peak);
    assert w[i] == WaveColor(c, steps, peak, i);
    WaveColorReadsBack(c, steps, peak, i);
    RampBounds(steps, peak, 0);
    assert LightenRgb(c, 0) == c;
    assert w[0] == WaveColor(c, steps, peak, 0);
  }

  /** On the channels, before formatting: no wave colour is darker than the
      base, and colours grow toward the middle of the wave and shrink after it. */
  lemma RampLightness(c: Rgb, steps: int, peak: int, i: int, j: int)
    requires InRange(c) && steps >= 2 && 0 <= peak && 0 <= i <= j < steps
    ensures WavePercent(steps, peak, i) >= 0 && WavePercent(steps, peak, j) >= 0
    ensures var li := LightenRgb(c, WavePercent(steps, peak, i));
      c.r <= li.r && c.g <= li.g && c.b <= li.b
    ensures var li, lj := LightenRgb(c, WavePercent(steps, peak, i)), LightenRgb(c, WavePercent(steps, peak, j));
      && (j <= steps / 2 ==> li.r <= lj.r && li.g <= lj.g && li.b <= lj.b)
      && (steps / 2 <= i ==> li.r >= lj.r && li.g >= lj.g && li.b >= lj.b)
  {
    RampBounds(steps, peak, i);
    RampBounds(steps, peak, j);
    var pi, pj := WavePercent(steps, peak, i), WavePercent(steps, peak, j);
    if j <= steps / 2 {
      RampRises(steps, peak, i, j);
    }
    if steps / 2 <= i {
      RampFalls(steps, peak, i, j);
    }
    assert LightenRgb(c, 0) == c;
    LightenRgbMonotone(c, 0, pi);
    if pi <= pj {
      LightenRgbMonotone(c, pi, pj);
    } else {
      LightenRgbMonotone(c, pj, pi);
    }
  }

  /** Brightness follows the ramp: channel by channel, no wave colour is
      darker than the base, and colours grow toward the middle of the wave
      and shrink after it. */
  lemma WaveBrightensThenFades(baseColor: string, waveWidth: int, peak: int, i: int, j: int)
    requires ParsableColor(baseColor) && 0 <= peak && 0 <= i <= j < Steps(waveWidth)
    ensures ParsableColor(WaveColors(baseColor, waveWidth, peak)[i])
    ensures ParsableColor(WaveColors(baseColor, waveWidth, peak)[j])
    ensures var c := ParseHexColor(baseColor);
      var li := ParseHexColor(WaveColors(baseColor, waveWidth, peak)[i]);
      && c.r <= li.r && c.g <= li.g && c.b <= li.b
    ensures var li := ParseHexColor(WaveColors(baseColor, waveWidth, peak)[i]);
      var lj := ParseHexColor(WaveColors(baseColor, waveWidth, peak)[j]);
      && (j <= Steps(waveWidth) / 2 ==> li.r <= lj.r && li.g <= lj.g && li.b <= lj.b)
      && (Steps(waveWidth) / 2 <= i ==> li.r >= lj.r && li.g >= lj.g && li.b >= lj.b)
  {
    WaveColorsShape(baseColor, waveWidth, peak, i);
    WaveColorsShape(baseColor, waveWidth, peak, j);
    RampLightness(ParseHexColor(baseColor), Steps(waveWidth), peak, i, j);
  }

  /** Channel by channel, a larger percentage never gives a darker colour. */
  lemma LightenRgbMonotone(c: Rgb, p: int, q: int)
    requires InRange(c) && 0 <= p <= q
    ensures var lp, lq := LightenRgb(c, p), LightenRgb(c, q);
      lp.r <= lq.r && lp.g <= lq.g && lp.b <= lq.b
  {
    LightenMonotone(c.r, p, q);
    LightenMonotone(c.g, p, q);
    LightenMonotone(c.b, p, q);
  }

  /** The defaults, then each option in order: the loop at the head of New. */
  method ApplyOptions(text: string, baseColor: string, opts: seq<Option>) returns (m: Model)
    ensures m.text == text && m.baseColor == baseColor && m.isLoading
    ensures m.position == 0 && m.waveColors == []
    ensures 0 <= m.peakLight <= 100 && m.waveWidth >= 2 && m.wavePause >= 0
    ensures Configured(m, opts)
  {
    m := Model(text, baseColor, true, 0, [], DefaultInterval, DefaultPeakLight,
               DefaultWaveWidth, DefaultWavePause, Right);
    for i := 0 to |opts|
      invariant m.text == text && m.baseColor == baseColor && m.isLoading
      invariant m.position == 0 && m.waveColors == []
      invariant 0 <= m.peakLight <= 100 && m.waveWidth >= 2 && m.wavePause >= 0
      invariant Configured(m, opts[..i])
    {
      ConfiguredStep(m, opts, i);
      m := Apply(opts[i], m);
    }
    assert opts[..|opts|] == opts;
  }

  /** New: defaults, then each option in order, then the wave for the final
      configuration. The result is loading, at position 0. */
  method New(text: string, baseColor: string, opts: seq<Option>) returns (m: Model)
    requires ParsableColor(baseColor)
    ensures Valid(m) && InCycle(m)
    ensures m.text == text && m.baseColor == baseColor && m.isLoading && m.position == 0
    ensures Configured(m, opts)
  {
    var configured := ApplyOptions(text, baseColor, opts);
    var colors := GenerateWaveColors(configured);
    m := configured.(waveColors := colors);
    forall f: Field ensures FieldConfigured(m, opts, f) {
      assert FieldConfigured(configured, opts, f);
    }
  }

  /** SetText replaces the text and nothing else; in particular the position
      is not reset. */
  function SetText(m: Model, text: string): (r: Model)
    ensures r.text == text && r.(text := m.text) == m
    ensures Valid(m) ==> Valid(r)
  {
    m.(text := text)
  }

  /** SetLoading switches the animation on or off and changes nothing else. */
  function SetLoading(m: Model, loading: bool): (r: Model)
    ensures r.isLoading == loading && r.(isLoading := m.isLoading) == m
    ensures Valid(m) ==> Valid(r)
  {
    m.(isLoading := loading)
  }

  /** Init: a tick is scheduled exactly when the model is loading. */
  function Init(m: Model): (c: Cmd)
    ensures c.TickAfter? <==> m.isLoading
    ensures c.TickAfter? ==> c.delay == m.interval
  {
    if m.isLoading then TickAfter(m.interval) else NoCmd
  }

  /** Update: a tick while loading advances the position by one, wrapping at
      the cycle length (Go's `%`), and schedules the next tick; any other
      message, or any message while not loading, changes nothing. */
  function Update(m: Model, msg: Msg): (r: (Model, Cmd))
    requires msg.TickMsg? && m.isLoading ==> TotalLength(m) != 0
    ensures msg.TickMsg? && m.isLoading ==>
      r.0 == m.(position := r.0.position) && r.1 == TickAfter(m.interval)
    ensures msg.TickMsg? && m.isLoading && m.position >= 0 && TotalLength(m) > 0 ==>
      r.0.position == (m.position + 1) % TotalLength(m)
    ensures !(msg.TickMsg? && m.isLoading) ==> r == (m, NoCmd)
    ensures Valid(m) ==> Valid(r.0)
    ensures Valid(m) && msg.TickMsg? && m.isLoading ==> InCycle(r.0)
  {
    if msg.TickMsg? && m.isLoading then
      var totalLength := |m.text| + |m.waveColors| + m.wavePause;
      (m.(position := TruncRem(m.position + 1, totalLength)), TickAfter(m.interval))
    else
      (m, NoCmd)
  }

  /** Whatever the text was changed to, the next tick brings the position
      back into the cycle. */
  lemma SetTextThenTick(m: Model, text: string)
    requires Valid(m) && m.isLoading
    ensures InCycle(Update(SetText(m, text), TickMsg).0)
  {
  }

  /** SetText alone can leave the position outside the new, shorter cycle. */
  lemma SetTextKeepsStalePosition()
    ensures var m := Model("Loading", "", true, 12, WaveColors("", 2, 90), DefaultInterval, 90, 2, 8, Right);
      Valid(m) && InCycle(m) && !InCycle(SetText(m, "OK"))
  {
  }

  /** A model that is not loading is inert: no tick is scheduled, no message
      changes it, and it renders flat. */
  lemma StaticIsInert(m: Model, msg: Msg)
    requires !m.isLoading
    ensures Init(m) == NoCmd
    ensures Update(m, msg) == (m, NoCmd)
    ensures Frame(m) == [Segment(m.text, m.baseColor)]
  {
  }

  /** The state after `k` ticks. */
  function Ticks(m: Model, k: nat): (r: Model)
    requires TotalLength(m) > 0
    ensures r == m.(position := r.position)
  {
    if k == 0 then m else Update(Ticks(m, k - 1), TickMsg).0
  }

  /** While loading, `k` ticks move the position `k` places round the cycle. */
  lemma {:induction false} TicksAdvance(m: Model, k: nat)
    requires m.isLoading && InCycle(m)
    ensures Ticks(m, k).position == (m.position + k) % TotalLength(m)
  {
    if k > 0 {
      var n := TotalLength(m);
      TicksAdvance(m, k - 1);
      var prev := Ticks(m, k - 1);
      assert TotalLength(prev) == n && prev.isLoading;
      assert prev.position == (m.position + k - 1) % n;
      assert Ticks(m, k) == Update(prev, TickMsg).0;
      assert Ticks(m, k).position == (prev.position + 1) % n;
      ModSucc(m.position + k - 1, n);
    }
  }

  /** The animation is periodic with exactly the cycle length as its period:
      the position returns after `TotalLength` ticks and not before. */
  lemma CyclePeriod(m: Model, k: nat)
    requires m.isLoading && InCycle(m)
    ensures Ticks(m, TotalLength(m)).position == m.position
    ensures 0 < k < TotalLength(m) ==> Ticks(m, k).position != m.position
  {
    var n := TotalLength(m);
    TicksAdvance(m, n);
    TicksAdvance(m, k);
    ModUnique(m.position + n, n, 1, m.position);
    if 0 < k < n {
      if m.position + k < n {
        ModUnique(m.position + k, n, 0, m.position + k);
      } else {
        ModUnique(m.position + k, n, 1, m.position + k - n);
      }
    }
  }

  /** "Hi" with a two-colour wave and no pause cycles through 0, 1, 2, 3. */
  lemma HiCyclesThroughFour(m: Model)
    requires m.isLoading && m.position == 0
    requires m.text == "Hi" && |m.waveColors| == 2 && m.wavePause == 0
    ensures TotalLength(m) == 4
    ensures Ticks(m, 1).position == 1 && Ticks(m, 2).position == 2
    ensures Ticks(m, 3).position == 3 && Ticks(m, 4).position == 0
  {
    TicksAdvance(m, 1);
    TicksAdvance(m, 2);
    TicksAdvance(m, 3);
    TicksAdvance(m, 4);
  }

  /** Character `index` of `textLen` lies in the wave's window: fewer than
      `|waveColors|` places behind `position`, counted from the right end
      when the direction is Left. */
  predicate InWave(m: Model, index: int, textLen: int) {
    var column := if m.direction == Left then textLen - 1 - index else index;
    m.position - |m.waveColors| < column <= m.position
  }

  /** getCharacterColor: the wave is a window of `|waveColors|` characters
      ending at `position` (counted from the right end when the direction is
      Left); inside it a character takes the wave colour for its distance,
      outside it the base colour. */
  function CharacterColor(m: Model, index: int, textLen: int): (c: string)
    ensures m.direction == Right ==>
      c == if InWave(m, index, textLen) then m.waveColors[m.position - index] else m.baseColor
    ensures m.direction == Left ==>
      c == if InWave(m, index, textLen)
           then m.waveColors[m.position - (textLen - 1 - index)] else m.baseColor
  {
    var distance := if m.direction == Left then m.position - (textLen - 1 - index)
                    else m.position - index;
    if distance >= 0 && distance < |m.waveColors| then m.waveColors[distance] else m.baseColor
  }

  /** Left is the mirror image of Right: character `i` gets the colour that
      the right-moving wave gives character `textLen - 1 - i`. */
  lemma DirectionMirror(m: Model, i: int, textLen: int)
    ensures CharacterColor(m.(direction := Left), i, textLen)
         == CharacterColor(m.(direction := Right), textLen - 1 - i, textLen)
  {
  }

  /** What `View` draws: the whole text in the base colour when not loading;
      otherwise one segment per code point, in order, in its character colour. */
  function Frame(m: Model): (segs: seq<Segment>)
    ensures !m.isLoading ==> segs == [Segment(m.text, m.baseColor)]
    ensures m.isLoading ==> |segs| == |m.text|
    ensures m.isLoading ==> forall i :: 0 <= i < |segs| ==>
      segs[i] == Segment([m.text[i]], CharacterColor(m, i, |m.text|))
  {
    if !m.isLoading then [Segment(m.text, m.baseColor)]
    else seq(|m.text|, i requires 0 <= i < |m.text| => Segment([m.text[i]], CharacterColor(m, i, |m.text|)))
  }

  /** View: builds the frame one code point at a time. */
  method View(m: Model) returns (segs: seq<Segment>)
    ensures segs == Frame(m)
  {
    if !m.isLoading {
      return [Segment(m.text, m.baseColor)];
    }
    var runes := m.text;
    segs := [];
    for i := 0 to |runes|
      invariant |segs| == i
      invariant forall k :: 0 <= k < i ==> segs[k] == Segment([runes[k]], CharacterColor(m, k, |runes|))
    {
      var color := CharacterColor(m, i, |runes|);
      segs := segs + [Segment([runes[i]], color)];
    }
  }

  /** The text the terminal shows for a sequence of segments. */
  function Joined(segs: seq<Segment>): string {
    if segs == [] then "" else Joined(segs[..|segs| - 1]) + segs[|segs| - 1].text
  }

  lemma {:induction false} JoinedSingles(s: string, segs: seq<Segment>)
    requires |segs| == |s| && forall i :: 0 <= i < |s| ==> segs[i].text == [s[i]]
    ensures Joined(segs) == s
  {
    if s != [] {
      var n := |s| - 1;
      JoinedSingles(s[..n], segs[..n]);
      assert segs[..n] == segs[..|segs| - 1];
      assert s == s[..n] + [s[n]];
    }
  }

  /** Colouring never changes the characters: the frame spells the text. */
  lemma FrameSpellsText(m: Model)
    ensures Joined(Frame(m)) == m.text
  {
    if m.isLoading {
      JoinedSingles(m.text, Frame(m));
    } else {
      assert Frame(m)[..0] == [];
    }
  }

  /** While loading, some character carries a wave colour exactly when the
      position has not passed the last character by the whole wave; the
      remaining positions of the cycle are the pause, drawn flat. */
  lemma WaveVisibleUntilPause(m: Model)
    requires Valid(m) && m.isLoading && |m.text| > 0
    ensures (exists i :: 0 <= i < |m.text| && InWave(m, i, |m.text|))
        <==> m.position < |m.text| + |m.waveColors| - 1
  {
    var n := |m.text|;
    if m.position < n + |m.waveColors| - 1 {
      var j := if m.position < n then m.position else n - 1;
      var i := if m.direction == Left then n - 1 - j else j;
      assert InWave(m, i, n);
    }
  }

  /** The default base colour of the examples reads as (0, 215, 135). */
  lemma ExampleColorParses()
    ensures ParsableColor("#00D787")
    ensures ParseHexColor("#00D787") == Rgb(0, 215, 135)
  {
    assert TrimHash("#00D787") == "00D787";
  }

  /** Lightened by 0%, the first colour of a wave over (0, 215, 135) is that
      colour written out. */
  lemma ExampleFirstWaveColor()
    ensures WaveColor(Rgb(0, 215, 135), 2, 100, 0) == "#00D787"
  {
    RampBounds(2, 100, 0);
    assert LightenRgb(Rgb(0, 215, 135), 0) == Rgb(0, 215, 135);
  }

  /** With two steps the second colour is the peak: at 100%, white. */
  lemma ExampleSecondWaveColor()
    ensures WaveColor(Rgb(0, 215, 135), 2, 100, 1) == "#FFFFFF"
  {
    RampBounds(2, 100, 1);
    assert LightenRgb(Rgb(0, 215, 135), 100) == Rgb(255, 255, 255);
  }

  /** A base colour of the wrong length draws its text as given, but its wave
      is built over the fallback colour: the first wave colour is #00D787
      whatever the string was. */
  lemma WrongLengthBaseWave(waveWidth: int, peak: int)
    requires 0 <= peak
    ensures ParsableColor("red")
    ensures WaveColors("red", waveWidth, peak)[0] == "#00D787"
  {
    assert TrimHash("red") == "red";
    WaveColorsShape("red", waveWidth, peak, 0);
    FallbackWritesOut();
  }

  /** A two-element sequence is the display of its elements. */
  lemma PairSeq<T>(w: seq<T>)
    requires |w| == 2
    ensures w == [w[0], w[1]]
  {
  }

  /** A two-colour wave at 100% over #00D787 is #00D787 itself, then white. */
  lemma ExampleWave()
    ensures ParsableColor("#00D787")
    ensures WaveColors("#00D787", 2, 100) == ["#00D787", "#FFFFFF"]
  {
    ExampleColorParses();
    ExampleFirstWaveColor();
    ExampleSecondWaveColor();
    var w := WaveColors("#00D787", 2, 100);
    assert w[0] == WaveColor(Rgb(0, 215, 135), 2, 100, 0);
    assert w[1] == WaveColor(Rgb(0, 215, 135), 2, 100, 1);
    PairSeq(w);
  }

  /** The model `New("Hi", "#00D787", WithWaveWidth(2), WithPeakLight(100),
      WithWavePause(0))` builds. */
  function HiModel(): Model {
    Model("Hi", "#00D787", true, 0, ["#00D787", "#FFFFFF"], DefaultInterval, 100, 2, 0, Right)
  }

  /** The "Hi" model is valid, and configured by its three options. */
  lemma HiModelValid()
    ensures Valid(HiModel())
    ensures Configured(HiModel(), [WithWaveWidth(2), WithPeakLight(100), WithWavePause(0)])
  {
    ExampleWave();
    var opts := [WithWaveWidth(2), WithPeakLight(100), WithWavePause(0)];
    forall k | LastSetter(opts, WaveWidthField, k) ensures k == 0 { }
    forall k | LastSetter(opts, PeakLightField, k) ensures k == 1 { }
    forall k | LastSetter(opts, WavePauseField, k) ensures k == 2 { }
    assert Sets(opts[0]) == WaveWidthField && Sets(opts[1]) == PeakLightField;
    assert Sets(opts[2]) == WavePauseField;
  }

  /** At position 0 the first character of "Hi" is at distance 0 and takes the
      first wave colour, which is #00D787 written out again, and the second is
      outside the wave; white reaches the first character at position 1, and
      with direction Left it reaches the second. */
  lemma HiExample()
    ensures var m := HiModel();
      && CharacterColor(m, 0, 2) == "#00D787" && CharacterColor(m, 1, 2) == "#00D787"
      && CharacterColor(m.(position := 1), 0, 2) == "#FFFFFF"
      && CharacterColor(m.(position := 1), 1, 2) == "#00D787"
      && CharacterColor(m.(position := 1, direction := Left), 1, 2) == "#FFFFFF"
      && CharacterColor(m.(position := 1, direction := Left), 0, 2) == "#00D787"
  {
  }
}
