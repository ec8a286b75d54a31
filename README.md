# Shimmer label engine in Dafny

The shimmer label is an animated terminal text effect. A band of brightened
colours, the *wave*, sweeps across a piece of text, character by character.
It wraps round after the text, the wave and a pause. The label exists twice,
in Go (`shimmer.go`, a Bubble Tea component) and in TypeScript
(`ts/src/shimmer.ts`, a class driven by a timer). This project models the
engine of both versions:

- **`numeric.dfy`** (`Numeric`): Go's integer `/`, and the `%` of Go and
  JavaScript, which truncate toward zero. Dafny's own operators are
  Euclidean. The TypeScript `lighten` divides as real numbers and floors,
  which is Dafny's `/` for a positive divisor.
- **`color_engine.dfy`** (`ColorEngine`): the parts both versions compute
  the same way.
  - Reading a `#RRGGBB` string into three channels, with the fallback
    colour #00D787 when the string has the wrong length.
  - Writing channels back as `#` and three upper-case two-digit hex pairs.
  - The triangular brightness ramp of the wave: 0% at index 0, `peakLight`
    at `steps / 2`, then falling again.
- **`shimmer.dfy`** (`Shimmer`): the Go version as a value model.
  - `Model` is a datatype.
  - `Update`, `SetText`, `SetLoading` and `Init` are functions, like the
    value receivers they model.
  - Each `With…` option is a function from model to model.
  - `New`, `generateWaveColors` and `View` keep their loops as methods
    proved against the functions `Configured`, `WaveColors` and `Frame`.
- **`shimmer_ts.dfy`** (`ShimmerTs`): the TypeScript class `Model`.
  - It has the same fields plus `timerActive`, which stands for
    `timer !== null`.
  - `Snapshot()` reads the fields other than the timer as a Go model.
  - Each method other than the constructor is proved to leave `Snapshot()`
    exactly as the matching Go operation would, so every property proved
    about the Go model also holds for the class.
  - The constructor has its own contract rather than a Go counterpart: the
    TypeScript options are an object, not a list of functions. It is proved
    to clamp or default each option (`ConfiguredBy`) and to generate the
    Go wave for the final configuration.

Rendering is a sequence of `Segment(text, colour)` values, not styled
terminal bytes. Text is a sequence of code points. A scheduled tick is the
command value `TickAfter(interval)` in Go and the `timerActive` flag in
TypeScript.

Three consequences of the code a reader might not expect:

- The first wave colour is lightened by 0%, so it is the parsed base colour
  written back out as upper-case `#RRGGBB`: for "#00d787" it is the string
  "#00D787", and for a base of the wrong length such as "red" it is the
  fallback #00D787, while characters outside the wave keep the base string as
  given (`Shimmer.WrongLengthBaseWave`). In a "Hi" label over #00D787 at
  position 0, the first character therefore shows #00D787, not the brightest
  colour (`Shimmer.HiExample`).
- With two steps the wave is only `[base, peak]`, and it does not fall back
  toward the base (`ColorEngine.RampLast`, `Shimmer.ExampleWave`).
- The ramp is symmetric only for an odd number of steps
  (`ColorEngine.RampSymmetricWhenOdd`). For every even number, the default
  width of 8 included, the middle colour is at the peak but its mirror image
  is not (`ColorEngine.RampAsymmetricWhenEven`). At width 8 and peak 90 the
  percentages are 0, 22, 45, 67, 90, 60, 30, 0 (`ColorEngine.DefaultRamp`).

## Model

| member | source | states |
|---|---|---|
| `Numeric.TruncDiv` | shimmer.go:245 | Go's integer division: for non-negative operands it is the floor quotient, for a non-positive dividend the negated quotient of its magnitude (truncation toward zero) |
| `Numeric.TruncRem` | shimmer.go:147 | Go's and JavaScript's `%`: for a non-negative dividend and positive modulus it is the ordinary remainder, in [0, modulus) |
| `ColorEngine.DigitValue` | shimmer.go:237-239 | a hex digit of either case has a value in [0, 16) |
| `ColorEngine.UpperDigit` | ts/src/shimmer.ts:155-157 | the digit written for a value below 16 is an upper-case hex digit whose value reads back as that value |
| `ColorEngine.ToUpperDigit` | ts/src/shimmer.ts:156 | upper-casing a hex digit keeps its value |
| `ColorEngine.PairValue` | shimmer.go:237-239 | a two-digit hex numeral is a byte |
| `ColorEngine.ParseHexColor` | shimmer.go:232-241 | parsing gives channels in [0, 255]; any length other than six after the '#' gives (0, 215, 135) |
| `ColorEngine.OnlyOneHashStripped` | shimmer.go:233 | exactly one leading '#' is removed: "#RRGGBB" reads as "RRGGBB", while "##RRGGBB" has the wrong length and reads as the fallback |
| `ColorEngine.ChannelIsPaddedNumeral` | ts/src/shimmer.ts:156 | the two characters written for a byte are its upper-case base-16 numeral left-padded with '0' to width two, as `%02X` and `toString(16).padStart(2, "0").toUpperCase()` write it |
| `ColorEngine.FormatShape` | shimmer.go:221-225 | a formatted in-range colour is seven characters: '#' then six upper-case hex digits |
| `ColorEngine.PairOfByte` | shimmer.go:237 | reading back the two digits written for a byte gives the byte |
| `ColorEngine.ParseFormat` | ts/src/shimmer.ts:143-157 | round trip: parsing the formatted string of any in-range colour is accepted and gives the same three channels |
| `ColorEngine.DigitRoundTrip` | ts/src/shimmer.ts:148-151 | writing back the value of a hex digit gives that digit in upper case |
| `ColorEngine.PairNibbles` | shimmer.go:237-239 | the high and low nibble of a pair's value are the values of its two digits |
| `ColorEngine.FormatParse` | shimmer.go:221-241 | the opposite round trip: formatting a parsed six-digit colour gives '#' and the same digits in upper case |
| `ColorEngine.TrimHash` | shimmer.go:233 | the string loses at most one leading '#', and exactly one character when it starts with '#'; `OnlyOneHashStripped` shows that a second '#' stays |
| `ColorEngine.Channel` | ts/src/shimmer.ts:156 | a byte is written as two upper-case hex digits whose value reads back as the byte; `ChannelIsPaddedNumeral` ties it to the padded numeral |
| `ColorEngine.FormatHexColor` | shimmer.go:221-225 | the formatted colour is seven characters starting with '#'; `FormatShape` adds that the rest are upper-case hex digits, and `ParseFormat` and `FormatParse` give the round trips |
| `ColorEngine.FallbackWritesOut` | shimmer.go:221-235 | the fallback (0, 215, 135) writes out as "#00D787" |
| `ColorEngine.WavePercent` | shimmer.go:209-220 | the percentage of wave colour `i` lies in [0, peakLight]; `RampBounds`, `RampRises`, `RampFalls`, `RampLast` and the symmetry lemmas give its shape |
| `ColorEngine.Steps` | shimmer.go:203-206 | the wave has `max(waveWidth, 2)` colours: at least 2, at least the width, and either the width or 2 |
| `ColorEngine.RampDivisorsPositive` | shimmer.go:209-218 | both divisors of the ratio, `mid` and `steps - 1 - mid`, are positive wherever they are used |
| `ColorEngine.RampBounds` | shimmer.go:209-220 | the percentage is 0 at index 0 and `peakLight` at `mid`, and always in [0, peakLight] |
| `ColorEngine.RampStep` | shimmer.go:214-220 | a percentage computed branch by branch, as the loop does, is the ramp value and lies in [0, peakLight] |
| `ColorEngine.RampRises` | shimmer.go:214-215 | up to `mid` the percentage never decreases |
| `ColorEngine.RampFalls` | shimmer.go:216-218 | from `mid` on the percentage never increases |
| `ColorEngine.RampSymmetricWhenOdd` | shimmer.go:209-218 | with an odd number of steps the ramp is its own mirror image |
| `ColorEngine.RampAsymmetricWhenEven` | shimmer.go:209-218 | with an even number of steps and a positive peak the ramp is not symmetric: the middle percentage is the peak and its mirror image is below it |
| `ColorEngine.DefaultRamp` | shimmer.go:209-220 | at the default width 8 and peak 90 the percentages are 0, 22, 45, 67, 90, 60, 30, 0, so index 2 and its mirror 5 differ |
| `ColorEngine.RampLast` | shimmer.go:216-218 | the last percentage is back at 0 from three steps on; with two steps it is `peakLight` |
| `Shimmer.ClampPeakLight` | shimmer.go:61-71 | the peak lightness ends in [0, 100]: unchanged inside, 0 below, 100 above |
| `Shimmer.ClampWaveWidth` | shimmer.go:74-81 | the width ends at least 2: unchanged from 2 on, 2 below |
| `Shimmer.ClampWavePause` | shimmer.go:84-91 | the pause ends at least 0: unchanged from 0 on, 0 below |
| `Shimmer.Apply` | shimmer.go:54-98 | an option writes its own field, with the clamped value, and leaves every other field of the model unchanged |
| `Shimmer.LastSetterStep` | shimmer.go:115-117 | after one more option, that option is the last writer of its field, and the last writers of the other fields are unchanged |
| `Shimmer.FieldConfiguredStep` | shimmer.go:115-117 | applying the next option keeps each field equal to what the options so far leave there |
| `Shimmer.ConfiguredStep` | shimmer.go:115-117 | applying the next option keeps the whole configuration equal to what the options so far leave there |
| `Shimmer.ApplyOptions` | shimmer.go:103-117 | starting from text, colour, loading, position 0 and the defaults, the option loop leaves each field at the value of its last option, or at the default when no option sets it; the clamped ranges hold |
| `Shimmer.New` | shimmer.go:102-121 | the new model is loading at position 0, holds the text and colour, is configured by the options in order, and its wave is the one generated for the final configuration (so it is valid and in its cycle) |
| `Shimmer.TotalLengthAtLeastTwo` | shimmer.go:146-147 | a valid model's cycle length is at least 2, so the tick's `%` never divides by zero; its wave has `waveWidth` colours |
| `Shimmer.Lighten` | shimmer.go:244-250 | the result never exceeds 255; `LightenRange` and `LightenMonotone` give its bounds and monotonicity |
| `Shimmer.LightenRange` | shimmer.go:244-250 | a byte lightened by a non-negative percentage lies between itself and 255; 0% leaves it unchanged and 100% gives 255 |
| `Shimmer.LightenMonotone` | shimmer.go:244-250 | a larger percentage never gives a darker channel |
| `Shimmer.LightenRgb` | shimmer.go:221-225 | all three channels lightened stay in range; 0% gives the colour back and 100% gives white |
| `Shimmer.LightenRgbMonotone` | shimmer.go:221-225 | channel by channel, a larger percentage never gives a darker colour |
| `Shimmer.GenerateWaveColors` | shimmer.go:199-229 | the loop fills exactly the wave `WaveColors` of the base colour, width and peak |
| `Shimmer.WaveColor` | shimmer.go:220-225 | wave colour `i` is a seven-character '#' string; `WaveColorReadsBack` shows it parses back to the base lightened by the ramp percentage |
| `Shimmer.WaveColors` | shimmer.go:199-229 | the wave has `max(waveWidth, 2)` colours; `WaveColorsShape` and `WaveBrightensThenFades` give its contents |
| `Shimmer.FilledBufferIsWave` | shimmer.go:208-228 | a buffer of the right length holding wave colour `k` at each index `k` is the wave |
| `Shimmer.WaveStep` | shimmer.go:211-226 | one pass of the loop yields wave colour `i`: the base lightened by the ramp percentage and formatted |
| `Shimmer.WaveColorReadsBack` | shimmer.go:220-225 | each wave colour parses back to the base colour lightened by its ramp percentage |
| `Shimmer.WaveColorsShape` | shimmer.go:199-229 | the wave has `max(waveWidth, 2)` colours, its first is the parsed base written back out as upper-case `#RRGGBB` (the fallback #00D787 for a base of the wrong length), and each parses back to the base lightened by its ramp percentage |
| `Shimmer.WrongLengthBaseWave` | shimmer.go:199-235 | a base of the wrong length such as "red" still parses, but the first colour of its wave is the fallback "#00D787" |
| `Shimmer.RampLightness` | shimmer.go:211-225 | on the channels, no wave colour is darker than the base, colours brighten toward `mid` and darken after it |
| `Shimmer.WaveBrightensThenFades` | shimmer.go:199-229 | the same brightening and fading, read back from the generated colour strings |
| `Shimmer.SetText` | shimmer.go:124-127 | only the text changes; the position is not reset; validity is kept |
| `Shimmer.SetLoading` | shimmer.go:130-133 | only the loading flag changes, and validity is kept |
| `Shimmer.Init` | shimmer.go:136-141 | a tick is scheduled, after the interval, exactly when the model is loading |
| `Shimmer.Update` | shimmer.go:144-151 | a tick while loading changes only the position, to `(position + 1) % totalLength`, and schedules the next tick; anything else returns the model unchanged with no command; validity is kept and a tick lands in the cycle |
| `Shimmer.SetTextThenTick` | shimmer.go:124-151 | whatever the new text, the next tick brings the position back into the cycle |
| `Shimmer.SetTextKeepsStalePosition` | shimmer.go:124-127 | SetText alone can leave a valid model's position outside its new, shorter cycle |
| `Shimmer.StaticIsInert` | shimmer.go:136-159 | a model that is not loading schedules nothing, ignores every message and renders its whole text in the base colour |
| `Shimmer.Ticks` | shimmer.go:144-151 | repeated ticks change nothing but the position |
| `Shimmer.TicksAdvance` | shimmer.go:144-151 | `k` ticks while loading move the position `k` places round the cycle |
| `Shimmer.CyclePeriod` | shimmer.go:144-151 | the position returns after exactly `totalLength` ticks and not before |
| `Shimmer.HiCyclesThroughFour` | shimmer.go:144-151 | "Hi" with a two-colour wave and no pause has a cycle of 4 and visits positions 1, 2, 3, 0 |
| `Shimmer.CharacterColor` | shimmer.go:179-195 | a character takes `waveColors[distance]` exactly when it lies in the window (`InWave`) of `len(waveColors)` characters ending at the position (counted from the right end for Left), and the base colour otherwise |
| `Shimmer.DirectionMirror` | shimmer.go:182-188 | with Left, character `i` gets the colour that Right gives character `textLen - 1 - i` |
| `Shimmer.Frame` | shimmer.go:154-171 | not loading: one segment with the whole text in the base colour; loading: one segment per code point, in order, in that character's colour |
| `Shimmer.View` | shimmer.go:154-171 | the loop builds the frame: the whole text in the base colour when not loading, otherwise one segment per code point in order, coloured by its character colour |
| `Shimmer.JoinedSingles` | shimmer.go:164-168 | one-character segments concatenate back to the text they came from |
| `Shimmer.FrameSpellsText` | shimmer.go:154-171 | colouring never changes the characters: the segments of a frame concatenate to the text |
| `Shimmer.WaveVisibleUntilPause` | shimmer.go:179-195 | while loading, some character lies in the wave's window (the condition under which `CharacterColor` gives it a wave colour) exactly when the position is below `len(text) + len(waveColors) - 1`; the rest of the cycle is the flat pause |
| `Shimmer.ExampleColorParses` | shimmer.go:232-241 | "#00D787" reads as (0, 215, 135) |
| `Shimmer.ExampleFirstWaveColor` | shimmer.go:214-225 | the first colour of a two-step 100% wave over #00D787 is "#00D787" |
| `Shimmer.ExampleSecondWaveColor` | shimmer.go:216-225 | the second colour of that wave is "#FFFFFF" |
| `Shimmer.ExampleWave` | shimmer.go:199-229 | the whole two-step 100% wave over #00D787 is ["#00D787", "#FFFFFF"] |
| `Shimmer.HiModelValid` | shimmer.go:102-121 | the "Hi" model with width 2, peak 100 and pause 0 is valid and configured by those three options |
| `Shimmer.HiExample` | shimmer.go:179-195 | in that model, position 0 shows both characters in the base colour; at position 1 white reaches the first character, or the second with Left |
| `ShimmerTs.Lighten` | ts/src/shimmer.ts:159-162 | the TypeScript lighten never exceeds 255 |
| `ShimmerTs.LightenAgrees` | ts/src/shimmer.ts:159-162 | whenever the blended amount is not negative, the floor-based TypeScript lighten equals Go's truncating one |
| `ShimmerTs.LightenRange` | ts/src/shimmer.ts:159-162 | a byte lightened by a non-negative percentage lies between itself and 255; 0% gives it unchanged and 100% gives 255 |
| `ShimmerTs.LightenDivergesBelowZero` | ts/src/shimmer.ts:160-161 | outside the percentages the label produces the versions differ: black at -1% gives -3 here and -2 in Go |
| `ShimmerTs.LightenRgb` | ts/src/shimmer.ts:136 | the three lightened channels never exceed 255; `LightenRgbAgrees` shows they equal Go's lightened colour on in-range colours and non-negative percentages |
| `ShimmerTs.LightenRgbAgrees` | ts/src/shimmer.ts:136 | for in-range channels and a non-negative percentage, the colour this port lightens equals Go's lightened colour |
| `ShimmerTs.Model.constructor` | ts/src/shimmer.ts:35-46 | the new label is valid, loading, at position 0, without a timer; each option is clamped or defaulted; the wave has `waveWidth` colours |
| `ShimmerTs.Model.Init` | ts/src/shimmer.ts:52-56 | the timer is on afterwards exactly when it was on already or the label is loading, so a second call changes nothing |
| `ShimmerTs.Model.Stop` | ts/src/shimmer.ts:58-63 | no timer is left |
| `ShimmerTs.Model.SetText` | ts/src/shimmer.ts:65-68 | the state afterwards is Go's SetText of the state before |
| `ShimmerTs.Model.SetLoading` | ts/src/shimmer.ts:70-78 | the state afterwards is Go's SetLoading of the state before, and the timer runs exactly when loading |
| `ShimmerTs.Model.Tick` | ts/src/shimmer.ts:96-103 | the state afterwards is Go's Update with a tick: unchanged when not loading, otherwise the position moves to `(position + 1) % totalLength` and stays in range |
| `ShimmerTs.Model.CharacterColor` | ts/src/shimmer.ts:105-119 | the same window rule and mirror as Go's getCharacterColor on the same state |
| `ShimmerTs.Model.View` | ts/src/shimmer.ts:80-94 | the loop builds exactly the frame Go's View draws for the same state |
| `ShimmerTs.Model.GenerateWaveColors` | ts/src/shimmer.ts:121-140 | the loop fills exactly the Go wave for the same base colour, width and peak |
| `ShimmerTs.WaveStep` | ts/src/shimmer.ts:126-137 | one pass of the loop, with the floor and this version's lighten, yields the Go wave colour `i` |
| `ShimmerTs.Create` | ts/src/shimmer.ts:164-166 | a fresh label, as the constructor builds it |

## Left out

- The ratio in `generateWaveColors` is computed in floating point and then
  truncated (Go) or floored (TypeScript). Here it is exact integer
  arithmetic, `(i * peak) / mid` or `((steps - 1 - i) * peak) / (steps - 1 - mid)`.
  This is the intended ramp. IEEE rounding of the float ratio (which can
  land one below the exact value) is not modelled.
- Colour strings of length six that are not six hex digits. Go ignores the
  `ParseInt` error and accepts a sign; JavaScript's `parseInt` can yield NaN
  or a prefix value. `ParsableColor` makes six hex digits a precondition.
  The wrong-length fallback is modelled.
- The colour string is a sequence of characters. Go measures its length in
  bytes and TypeScript's `hex.length` in UTF-16 code units; either only
  differs from this for non-ASCII colour strings.
- UTF-8 and UTF-16 decoding: the text is a sequence of code points.
- lipgloss and chalk styling: output is a sequence of `Segment` values.
- `tea.Tick`, `time.Duration`, `setInterval` and `clearInterval`. A
  scheduled tick is the `Cmd` value `TickAfter(interval)` in Go and the
  `timerActive` flag in TypeScript. The interval is an integer number of
  milliseconds.
- `setOnTick` and the `onTick` callback in `tick`: a callback into unseen
  code.
- Options other than the five the package defines. Go's `Option` is any
  `func(*Model)`, and a caller could pass one that changes other fields.
  The model's `Option` is the five package options, each applied as a
  function from model to model.
- `Direction` values other than 0 and 1: the source treats every value
  other than Left as Right, and the datatype has just the two.
- 64-bit overflow in Go and non-integer or non-finite numbers in
  TypeScript: integers are unbounded. TypeScript options that are not
  integers are not modelled.
- `ColorEngine.Channel` is defined for bytes only, which is all the label
  formats. `ColorEngine.HexNumeral` is the general base-16 numeral, and
  `ColorEngine.ChannelIsPaddedNumeral` ties the two.
- Go's `waveColors` is `nil` until `New` generates it. Here it is the
  empty sequence.
- `run.go`, `ts/src/run.ts` and the demo programs: program setup, key
  handling, signals and output are not part of this model.
- `ShimmerTs.Lighten`: its own contract only states the upper bound. The
  exact agreement with the Go version is `ShimmerTs.LightenAgrees`, and the
  bounds are `ShimmerTs.LightenRange`.
- `Shimmer.Update`: a tick on a loading model whose cycle has length zero
  (empty text, no wave colours, no pause) divides by zero, and Go panics.
  Only Go's zero value `Model{}` reaches it, after `SetLoading(true)`; a
  model built by `New` never does. The model excludes that case by its
  precondition rather than modelling the panic.
