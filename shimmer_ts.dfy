/** The TypeScript shimmer label (ts/src/shimmer.ts): a class whose methods
    change its fields in place. Its fields other than the timer are exactly
    the Go model's, and each method is proved to leave them as the matching
    Go operation would: `Snapshot()` after the call is the Go result. */
module ShimmerTs {
  import opened Numeric
  import opened ColorEngine
  import Shimmer

  /** A field of the options object: left out (undefined) or given. */
  datatype Maybe<T> = Absent | Present(value: T) {
    /** `x ?? fallback` */
    function Or(fallback: T): T {
      match this
      case Absent => fallback
      case Present(v) => v
    }
  }

  datatype Options = Options(
    interval: Maybe<int>,
    peakLight: Maybe<int>,
    waveWidth: Maybe<int>,
    wavePause: Maybe<int>,
    direction: Maybe<Shimmer.Direction>)

  function Max(a: int, b: int): int { if a >= b then a else b }

  function Min(a: int, b: int): int { if a <= b then a else b }

  /** lighten: `Math.min(255, Math.floor(value + (255 - value) * percent / 100))`.
      The division is real, so the floor rounds down where Go truncates
      toward zero. */
  function Lighten(value: int, percent: int): (r: int)
    ensures r <= 255
  {
    Min(255, value + ((255 - value) * percent) / 100)
  }

  /** Whenever the blended amount is not negative, which holds for every
      channel and percentage the label produces, the two ports agree. */
  lemma LightenAgrees(value: int, percent: int)
    requires (255 - value) * percent >= 0
    ensures Lighten(value, percent) == Shimmer.Lighten(value, percent)
  {
    assert TruncDiv((255 - value) * percent, 100) == ((255 - value) * percent) / 100;
  }

  /** A channel lightened by a non-negative percentage stays a byte and never
      gets darker; 0% leaves it alone and 100% makes it white. */
  lemma LightenRange(value: int, percent: int)
    requires IsByte(value) && 0 <= percent
    ensures value <= Lighten(value, percent) <= 255
    ensures percent == 0 ==> Lighten(value, percent) == value
    ensures percent == 100 ==> Lighten(value, percent) == 255
  {
    MulMonotone(0, 255 - value, percent);
    LightenAgrees(value, percent);
    Shimmer.LightenRange(value, percent);
  }

  /** Outside the range the source uses, the ports differ: a negative
      percentage on black gives -3 here and -2 in Go. */
  lemma LightenDivergesBelowZero()
    ensures Lighten(0, -1) == -3 && Shimmer.Lighten(0, -1) == -2
  {
  }

  /** The three channels lightened by the same percentage. */
  function LightenRgb(c: Rgb, percent: int): (l: Rgb)
    ensures l.r <= 255 && l.g <= 255 && l.b <= 255
  {
    Rgb(Lighten(c.r, percent), Lighten(c.g, percent), Lighten(c.b, percent))
  }

  /** On an in-range colour and a non-negative percentage, the colour this
      port lightens is the one the Go port lightens. */
  lemma LightenRgbAgrees(c: Rgb, percent: int)
    requires InRange(c) && 0 <= percent
    ensures LightenRgb(c, percent) == Shimmer.LightenRgb(c, percent)
  {
    MulMonotone(0, 255 - c.r, percent);
    MulMonotone(0, 255 - c.g, percent);
    MulMonotone(0, 255 - c.b, percent);
    LightenAgrees(c.r, percent);
    LightenAgrees(c.g, percent);
    LightenAgrees(c.b, percent);
  }

  class Model {
    var text: string
    var baseColor: string
    var isLoading: bool
    var position: int
    var waveColors: seq<string>
    var interval: int
    var peakLight: int
    var waveWidth: int
    var wavePause: int
    var direction: Shimmer.Direction
    /** Whether the repeating timer is installed (`timer !== null`). */
    var timerActive: bool

    /** The animation state, as the Go model holds it. */
    function Snapshot(): Shimmer.Model
      reads this
    {
      Shimmer.Model(text, baseColor, isLoading, position, waveColors,
                    interval, peakLight, waveWidth, wavePause, direction)
    }

    /** The Go model's invariant, and a timer only while loading. */
    ghost predicate Valid()
      reads this
    {
      Shimmer.Valid(Snapshot()) && (timerActive ==> isLoading)
    }

    /** The configuration the constructor derives from `opts`: each given
        value clamped to its range, each missing one defaulted. */
    ghost predicate ConfiguredBy(opts: Options)
      reads this
    {
      && interval == opts.interval.Or(Shimmer.DefaultInterval)
      && peakLight == Shimmer.ClampPeakLight(opts.peakLight.Or(Shimmer.DefaultPeakLight))
      && waveWidth == Shimmer.ClampWaveWidth(opts.waveWidth.Or(Shimmer.DefaultWaveWidth))
      && wavePause == Shimmer.ClampWavePause(opts.wavePause.Or(Shimmer.DefaultWavePause))
      && direction == opts.direction.Or(Shimmer.Right)
    }

    /** The constructor: loading, at position 0, no timer, options clamped,
        and the wave generated for the final configuration. */
    constructor (text: string, baseColor: string, opts: Options)
      requires ParsableColor(baseColor)
      ensures Valid() && ConfiguredBy(opts)
      ensures this.text == text && this.baseColor == baseColor
      ensures isLoading && position == 0 && !timerActive
      ensures |waveColors| == waveWidth
    {
      this.text := text;
      this.baseColor := baseColor;
      isLoading := true;
      position := 0;
      interval := opts.interval.Or(Shimmer.DefaultInterval);
      peakLight := Max(0, Min(100, opts.peakLight.Or(Shimmer.DefaultPeakLight)));
      waveWidth := Max(2, opts.waveWidth.Or(Shimmer.DefaultWaveWidth));
      wavePause := Max(0, opts.wavePause.Or(Shimmer.DefaultWavePause));
      direction := opts.direction.Or(Shimmer.Right);
      timerActive := false;
      new;
      waveColors := GenerateWaveColors();
    }

    /** init: installs the timer when loading and none is installed; a second
        call changes nothing. */
    method Init()
      requires Valid()
      modifies this`timerActive
      ensures Valid()
      ensures timerActive == (old(timerActive) || isLoading)
    {
      if isLoading && !timerActive {
        timerActive := true;
      }
    }

    /** stop: removes the timer, if any. */
    method Stop()
      modifies this`timerActive
      ensures !timerActive
    {
      if timerActive {
        timerActive := false;
      }
    }

    /** setText: replaces the text, as Go's SetText; the position is kept. */
    method SetText(text: string)
      requires Valid()
      modifies this`text
      ensures Valid()
      ensures Snapshot() == Shimmer.SetText(old(Snapshot()), text)
    {
      this.text := text;
    }

    /** setLoading: as Go's SetLoading, and the timer runs exactly when loading. */
    method SetLoading(loading: bool)
      requires Valid()
      modifies this`isLoading, this`timerActive
      ensures Valid()
      ensures Snapshot() == Shimmer.SetLoading(old(Snapshot()), loading)
      ensures timerActive == loading
    {
      isLoading := loading;
      if !loading {
        Stop();
      } else if !timerActive {
        Init();
      }
    }

    /** tick: what Go's Update does with a tick message, done in place. */
    method Tick()
      requires Valid()
      modifies this`position
      ensures Valid()
      ensures Snapshot() == Shimmer.Update(old(Snapshot()), Shimmer.TickMsg).0
      ensures !isLoading ==> position == old(position)
      ensures isLoading ==> 0 <= position < Shimmer.TotalLength(Snapshot())
    {
      if !isLoading {
        return;
      }
      var totalLength := |text| + |waveColors| + wavePause;
      position := TruncRem(position + 1, totalLength);
    }

    /** getCharacterColor: the same window rule and mirror as the Go port. */
    function CharacterColor(index: int, textLen: int): (c: string)
      reads this
      ensures c == Shimmer.CharacterColor(Snapshot(), index, textLen)
    {
      var distance := if direction == Shimmer.Left then position - (textLen - 1 - index)
                      else position - index;
      if distance >= 0 && distance < |waveColors| then waveColors[distance] else baseColor
    }

    /** view: the frame the Go port draws for the same state. */
    method View() returns (segs: seq<Shimmer.Segment>)
      ensures segs == Shimmer.Frame(Snapshot())
    {
      if !isLoading {
        return [Shimmer.Segment(text, baseColor)];
      }
      var runes := text;
      segs := [];
      for i := 0 to |runes|
        invariant |segs| == i
        invariant forall k :: 0 <= k < i ==>
          segs[k] == Shimmer.Segment([runes[k]], CharacterColor(k, |runes|))
      {
        var color := CharacterColor(i, |runes|);
        segs := segs + [Shimmer.Segment([runes[i]], color)];
      }
    }

    /** generateWaveColors: the same wave as the Go port, computed with this
        port's lighten. */
    method GenerateWaveColors() returns (colors: seq<string>)
      requires ParsableColor(baseColor) && 0 <= peakLight
      ensures colors == Shimmer.WaveColors(baseColor, waveWidth, peakLight)
    {
      var base, peak, width := baseColor, peakLight, waveWidth;
      var c := ParseHexColor(base);
      var steps := Max(width, 2);
      var buf := new string[steps];
      for i := 0 to steps
        invariant forall k :: 0 <= k < i ==> buf[k] == Shimmer.WaveColor(c, steps, peak, k)
      {
        buf[i] := WaveStep(c, steps, peak, i);
      }
      colors := buf[..];
      Shimmer.FilledBufferIsWave(colors, base, width, peak);
    }
  }

  /** One pass of generateWaveColors' loop: `Math.floor(ratio * peakLight)`,
      then the three channels lightened by this port's lighten and formatted. */
  method WaveStep(c: Rgb, steps: int, peak: int, i: int) returns (color: string)
    requires InRange(c) && steps >= 2 && 0 <= peak && 0 <= i < steps
    ensures color == Shimmer.WaveColor(c, steps, peak, i)
  {
    var mid := steps / 2;
    var pct;
    if i <= mid {
      pct := (i * peak) / mid;
    } else {
      pct := ((steps - 1 - i) * peak) / (steps - 1 - mid);
    }
    RampStep(steps, peak, i, pct);
    LightenRgbAgrees(c, pct);
    color := FormatHexColor(LightenRgb(c, pct));
  }

  /** create: a new label, as the constructor builds it. */
  method Create(text: string, baseColor: string, opts: Options) returns (m: Model)
    requires ParsableColor(baseColor)
    ensures fresh(m) && m.Valid() && m.ConfiguredBy(opts)
    ensures m.text == text && m.baseColor == baseColor
    ensures m.isLoading && m.position == 0 && !m.timerActive
  {
    m := new Model(text, baseColor, opts);
  }
}
