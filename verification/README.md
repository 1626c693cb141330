# Timeline widget: period selection model

A Dafny model of the historical timeline widget (`Timeline` React component).
The widget steps through a fixed, non-empty list of periods. Each period has a
year range, a title and dated events. The model covers the part of the
component that is plain logic:

- **Selector** (`selector.dfy`): the active period index and the three inputs
  that move it. The next arrow computes `min(p + 1, N - 1)`. The previous arrow
  computes `max(p - 1, 0)`. A click on dot `i` selects `i`. Each arrow button is
  disabled at its end of the list.
- **Year counters** (`year_counters.dfy`): the two refs that store the years
  of the last period animated to. On every index change, one tween per counter
  starts from the stored years and heads for the new period's years. The refs
  are then overwritten with the new targets straight away. A tween is modelled
  as its start and target value.
- **Dot wheel** (`dots.dfy`): one button per period. Dot `i` sits at
  `30 + (i - active) * (360 / N)` degrees, computed exactly over `real`. It
  shows ordinal `i + 1`, and it shows the period title only when it is active.
- **Counter label** (`counter_label.dfy`): `"01/12"`-style text. It is the
  decimal form of `active + 1` and of `N`, each padded to two characters with
  `padStart(2, "0")`.
- **Data** (`periods.dfy`): `Period`, `Event`, and `Timeline`. A `Timeline` is
  any non-empty sequence of periods.

Three details of the code shape the model:

- A dot click passes the dot's own index to `setActivePeriod` without
  clamping (Timeline.tsx:105). The dots are generated from the period list
  (:96), so that index is always in range. The model therefore requires
  `0 <= i < N` of a dot click (`Selector.ValidAction`) and does not clamp it.
- The dot angle at :98 is not reduced modulo 360. The model keeps the
  unreduced angle. `Dots.DistinctPlaces` proves that no two dots coincide
  modulo 360.
- React does not re-render when a state setter is given the current value.
  So the `[activePeriod]` effect does not run for an arrow press at the end of
  the list, or for a click on the active dot. `YearCounters.Step` starts no
  tween in that case.

## Model

| member | source | states |
|---|---|---|
| `Selector.Next` | src/components/Timeline/Timeline.tsx:22-24 | the next arrow always yields a valid index; it moves one step forward below the last period and holds at the last period |
| `Selector.Prev` | src/components/Timeline/Timeline.tsx:26-28 | the previous arrow moves one step back above index 0 and holds at 0 |
| `Selector.NextIsClampedStep` | src/components/Timeline/Timeline.tsx:22-24 | advancing equals `clamp(p + 1, 0, N - 1)`, the clamped-step reference definition |
| `Selector.PrevIsClampedStep` | src/components/Timeline/Timeline.tsx:26-28 | going back equals `clamp(p - 1, 0, N - 1)` |
| `Selector.ArrowsUndoEachOther` | src/components/Timeline/Timeline.tsx:22-28 | away from the ends, previous undoes next and next undoes previous |
| `Selector.Apply` | src/components/Timeline/Timeline.tsx:22-28 | every handler (next, previous, dot click) keeps `0 <= active < N`; the arrows give exactly `Next`/`Prev`; a dot click selects that dot |
| `Selector.Press` | src/components/Timeline/Timeline.tsx:125-130 | a click on a disabled arrow leaves the index alone; an arrow click gives exactly `Next`/`Prev` either way; every input keeps the index in range |
| `Selector.PrevDisabled` | src/components/Timeline/Timeline.tsx:125 | the previous arrow is disabled exactly when going back would not move the index (see also `Selector.DisabledIffNoOp`) |
| `Selector.NextDisabled` | src/components/Timeline/Timeline.tsx:130 | for a valid index, the next arrow is disabled exactly when advancing would not move the index (see also `Selector.DisabledIffNoOp`) |
| `Selector.DisabledIffNoOp` | src/components/Timeline/Timeline.tsx:125-130 | the previous arrow is disabled exactly when `prevPeriod` would be a no-op, and the next arrow exactly when `nextPeriod` would be |
| `Selector.PressAgreesWithHandler` | src/components/Timeline/Timeline.tsx:125-130 | the `disabled` guard never changes the resulting index |
| `Selector.Reach` | src/components/Timeline/Timeline.tsx:11-28 | from any valid index, any sequence of inputs keeps the active index in `[0, N)` |
| `Selector.RepeatedNext` | src/components/Timeline/Timeline.tsx:22-24 | `k` presses of the next arrow from `p` reach `min(p + k, N - 1)`; extra presses at the end change nothing |
| `Selector.RepeatedPrev` | src/components/Timeline/Timeline.tsx:26-28 | `k` presses of the previous arrow from `p` reach `max(p - k, 0)` |
| `YearCounters.Mount` | src/components/Timeline/Timeline.tsx:15-18 | the first render selects period 0 and stores its years; the mount-time effect tween starts and ends on those years |
| `YearCounters.Effect` | src/components/Timeline/Timeline.tsx:30-58 | an index change starts both tweens at the stored years, aims them at the new period's years, and leaves the stored years equal to the new targets |
| `YearCounters.Step` | src/components/Timeline/Timeline.tsx:22-58 | after one input the stored years are the active period's years; a tween pair starts exactly when the index changes, from the old period's years to the new period's years |
| `YearCounters.Run` | src/components/Timeline/Timeline.tsx:30-58 | after any run of inputs the stored years are the active period's years, and at most one tween pair is started per input |
| `YearCounters.Session` | src/components/Timeline/Timeline.tsx:11-58 | a session (mount, then inputs) ends with the stored years synced to the final active period and ends at the index the selector reaches |
| `YearCounters.RunIsChained` | src/components/Timeline/Timeline.tsx:31-57 | each tween pair starts at the previous pair's target, never at a value shown mid-animation; the first starts at the stored years and the last aims at the final period |
| `YearCounters.RunTargetsArePeriods` | src/components/Timeline/Timeline.tsx:34-57 | every tween aims at the year range of some period |
| `YearCounters.SessionTweens` | src/components/Timeline/Timeline.tsx:17-57 | over a whole session every tween starts and ends on a period's year range; the tweens form a chain from period 0; the last target is the final period's years |
| `Dots.Angle` | src/components/Timeline/Timeline.tsx:98 | the angle is 30 for the active index, above 30 after it and below 30 before it; exact values are stated by `Dots.ActiveDotAtThirty`, `Dots.EvenSpacing`, `Dots.WheelTurns` and `Dots.DistinctPlaces` |
| `Dots.DotAt` | src/components/Timeline/Timeline.tsx:96-111 | dot `i` shows ordinal `i + 1`; it is active iff `i` is the active index, iff its angle is 30; it shows a title iff active, and that title is its own period's |
| `Dots.Wheel` | src/components/Timeline/Timeline.tsx:96-111 | one dot per period; dot `i` shows ordinal `i + 1`; it is active iff `i` is the active index; it shows a title iff active, and that title is its own period's |
| `Dots.ExactlyOneActive` | src/components/Timeline/Timeline.tsx:97 | the set of active dots is exactly `{active}` |
| `Dots.ActiveDotAtThirty` | src/components/Timeline/Timeline.tsx:98 | the active dot's angle is exactly 30 degrees |
| `Dots.EvenSpacing` | src/components/Timeline/Timeline.tsx:98 | neighbouring dots are exactly `360 / N` degrees apart |
| `Dots.WheelTurns` | src/components/Timeline/Timeline.tsx:98 | changing the active index from `a` to `b` turns every dot by the same `(a - b) * 360 / N` degrees |
| `Dots.DistinctPlaces` | src/components/Timeline/Timeline.tsx:98 | two different dots never differ by a whole number of turns, so no two share a place on the circle |
| `CounterLabel.Decimal` | src/components/Timeline/Timeline.tsx:120-121 | `toString()` of a whole number is non-empty, all digits, without a leading zero, one character long iff the number is below 10, and two characters long iff it is from 10 to 99 |
| `CounterLabel.ParseDecimal` | src/components/Timeline/Timeline.tsx:120-121 | reading the decimal form back gives the number |
| `CounterLabel.PadStart` | src/components/Timeline/Timeline.tsx:120-121 | `padStart` gives the larger of the target length and the input's length, keeps `s` as the suffix (it never truncates), and fills the front with the pad character |
| `CounterLabel.LabelReadsBack` | src/components/Timeline/Timeline.tsx:119-122 | the counter has exactly one `/`; the digits before it read as `active + 1` and those after it as `N`; each side is at least two characters, exactly two while its number is below 100, and the plain decimal form (no leading zero) from 10 up |
| `CounterLabel.Label` | src/components/Timeline/Timeline.tsx:119-122 | the counter is at least five characters; while both numbers are below 100 it is exactly five with the `/` in the middle (contents stated by `CounterLabel.LabelReadsBack` and `CounterLabel.TwelvePeriods`) |
| `CounterLabel.TwelvePeriods` | src/components/Timeline/Timeline.tsx:119-122 | with 12 periods the counter reads `01/12` at index 0 and `12/12` at index 11 |

## Left out

- Tween internals: the easing curve, the 0.6 s duration, and the per-frame `Math.round` of floating-point intermediate values. These belong to the animation library and use floating point. A tween is only its start and target.
- Timing between concurrent tweens. Earlier tweens are never killed or retargeted, so which one writes the counter text last is a matter of animation timing. The model states where tweens start and aim, not what is shown at each frame.
- The event carousel's fade-out, `slideTo(0)` and fade-in sequence. It is asynchronous and runs through animation-library and slider callbacks.
- JSX rendering, CSS custom properties, refs and SVG markup. Also React's own rendering of `section.from`/`section.to` into the year spans, which the tween updates overwrite.
- Floating-point rounding of `360 / N`, and the `${angle}deg` string. The angle is exact over `real`.
- The contents of the period data module. It is not part of this model; any non-empty list of periods is allowed.
- `Dots.Wheel`: its contract does not state the angles. They are stated by `Dots.ActiveDotAtThirty`, `Dots.EvenSpacing`, `Dots.WheelTurns` and `Dots.DistinctPlaces`.
