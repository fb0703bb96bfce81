# Countdown flip clock

A model of the countdown widget in `countdown.jsx`, with proofs about it. The
widget counts down to a fixed webinar start: 2025-10-16T15:00:00+02:00, which
is 1,760,619,600,000 ms after the Unix epoch. It has three parts:

- **App** (`countdown.jsx:219-244`). Once a second it sets `remaining` to
  `max(0, target - now)` milliseconds. It then splits that value into days,
  hours, minutes and seconds with floor division and remainder.
- **FlipClock** (`countdown.jsx:178-206`). It renders each field with
  `toString().padStart(2, '0')`. Characters 0 and 1 of the four padded strings
  become the digit props of eight FlipUnits, in the order days, hours,
  minutes, seconds.
- **FlipUnit** (`countdown.jsx:127-148`). It holds one displayed character.
  When its digit prop differs from `currentDigit`, it:
  - asks for a click sound with delay 0.38 s, but only when unmuted and an
    audio context is present;
  - moves the old digit into `previousDigit`;
  - starts flipping.

  A 500 ms timeout then ends the flip. That timeout is cleared whenever
  `isFlipping` or the prop changes, and re-armed when the unit is then
  flipping.

## Modules

- `CountdownTime` (countdown_time.dfy), the time arithmetic:
  - `Remaining` is the clamp.
  - `Decompose` is the four field expressions.
  - The lemmas show that the fields are bounded, rebuild the duration down to
    the dropped sub-second part, and are the only bounded fields that do so.
- `Digits` (digits.dfy), the string side:
  - decimal `toString` of a natural number (`NatToString`);
  - `padStart` with a one-character filler (`PadStart`);
  - `ValueOf`, which reads a digit string back into a number. The rendering
    is proved against it: `ValueOf(NatToString(n)) == n`, and the converse
    round trip holds for canonical strings.
- `FlipClock` (flip_clock.dfy):
  - `Pad2` and `Display`, the eight digit props;
  - the lemmas that each unit sees only its own position and that the units
    read back the fields.
- `FlipUnitModel` (flip_unit.dfy):
  - the unit as a value, `UnitState`, with two transitions: `OnDigit`, a
    render with a new prop, and `OnTimer`, a completion timeout firing;
  - the invariant the transitions keep, and lemmas over whole event
    sequences;
  - the class `FlipUnit`, which holds the same state in fields. Its methods
    are proved to perform exactly those transitions.
- `CountdownApp` (app.dfy): the class `App`, holding `remaining` and its
  eight units:
  - `Tick(now)` is one interval callback followed by the render it causes;
  - `UnitTimerFires` is a unit's timeout firing;
  - `Valid` says that the units show `Display(Decompose(remaining))`.
    `Tick` needs only `Mounted`, the part of `Valid` that is about the units
    themselves: it establishes the display whatever the units showed before.
- `Arith` (arith.dfy): facts about division and remainder used by the
  proofs above.

Timers are modelled by generation numbers:
- Arming a timeout issues the id `timerId + 1`.
- Clearing it drops `timerPending`.
- A firing carries the id of the timeout that fired, and only the pending id
  has any effect.

This makes "a cleared timeout never fires" a lemma. The timeout closure
captures the digit prop of the render that armed it; `timerDigit` records that
capture.

Two points where the code's behaviour is followed as written:

- **Days.** `padStart` never truncates, so a days count of 100 or more gives
  a days string of three or more characters. Only `daysStr[0]` and
  `daysStr[1]` reach a unit (`countdown.jsx:186-187`), so the trailing day
  digits are never shown. `DisplayDropsDayDigits` states what the day units
  then show: the leading two digits, a number smaller than the true count.
  Below 100 days the clock is exact (`ClockShowsRemaining`).
- **Completion timeout.** When the timeout completes, it sets
  `previousDigit` to the digit prop it captured, not to `currentDigit`
  (`countdown.jsx:143-146`). The invariant `Inv` shows the two are always the
  same character:
  - a unit's prop always equals its `currentDigit`;
  - a pending timeout always captured that digit.

  So completion always brings `previous` level with `current`
  (`CompletionShowsCurrent`), and the latest target always wins (`RunSpec`).

In App as written, `isMuted` starts true and is never set, and
`audioContextRef.current` stays null. `App` therefore holds both as constants
(`muted`, `!audio`), and a tick never asks any unit for a sound. The FlipUnit
model keeps both inputs general.

## Model

| member | source | states |
|---|---|---|
| CountdownTime.Remaining | countdown.jsx:226-227 | The remaining time is a natural number, at least target - now, and either 0 or exactly target - now, i.e. max(0, target - now) |
| CountdownTime.RemainingAfterTarget | countdown.jsx:226-227 | At or after the target the remaining time is 0 |
| CountdownTime.RemainingMonotone | countdown.jsx:224-227 | A later tick never shows more time, and once the remaining time is 0 it stays 0 |
| CountdownTime.Decompose | countdown.jsx:231-234 | The four floor divisions: hours < 24, minutes < 60 and seconds < 60; days is not bounded |
| CountdownTime.DecomposeReconstructs | countdown.jsx:231-234 | days·86400000 + hours·3600000 + minutes·60000 + seconds·1000 lies in (remaining - 1000, remaining] and equals remaining minus its sub-second part |
| CountdownTime.DecomposeUnique | countdown.jsx:231-234 | Any bounded fields that rebuild the duration to within a second are exactly the ones Decompose returns |
| CountdownTime.DecomposeOfReconstruct | countdown.jsx:231-234 | Decomposing a whole-second duration built from bounded fields gives back the fields |
| CountdownTime.DecomposeExample | countdown.jsx:226-234 | With the target 90,061,001 ms ahead, the fields are 1 day, 1 hour, 1 minute, 1 second |
| Digits.NatToString | countdown.jsx:179-182 | toString of a natural number has NumDigits(n) characters and is canonical (digits only, no leading zero), and it starts with '0' exactly when n is 0 |
| Digits.NumDigitsBounds | countdown.jsx:179-182 | NumDigits(n) is the k with 10^(k-1) <= n < 10^k |
| Digits.ValueOfNatToString | countdown.jsx:179-182 | Reading back the rendered digits gives n |
| Digits.NatToStringOfValue | countdown.jsx:179-182 | Rendering the value of a canonical digit string gives the string back |
| Digits.PadStart | countdown.jsx:179-182 | padStart returns max(width, length) characters, so it never truncates |
| Digits.PadStartShape | countdown.jsx:179-182 | padStart keeps the input as the suffix and puts only the filler before it |
| Digits.LeadingZerosValue | countdown.jsx:179-182 | Leading '0' characters keep a digit string a digit string with the same value |
| Digits.PrefixValue | countdown.jsx:186-187 | The first k characters of a digit string denote its value with the last length - k digits dropped |
| FlipClock.Pad2 | countdown.jsx:179-182 | toString().padStart(2, '0') has at least two characters |
| FlipClock.Pad2Value | countdown.jsx:179-182 | The padded string has max(2, NumDigits(n)) characters, is zeros followed by the decimal digits of n, and still denotes n |
| FlipClock.Pad2Small | countdown.jsx:179-182 | Below 100, the padded string is the tens digit then the units digit |
| FlipClock.LongDaysUnpadded | countdown.jsx:179 | From 100 on, a number has three or more digits and padStart leaves its string unchanged |
| FlipClock.Display | countdown.jsx:186-202 | The clock has exactly eight digit props |
| FlipClock.DisplayClosedForm | countdown.jsx:179-202 | With fewer than 100 days, the eight props are the tens and units digits of days, hours, minutes and seconds, in that order |
| FlipClock.DisplayFieldsIndependent | countdown.jsx:186-202 | Units 2k and 2k+1 depend only on the k-th field: clocks that agree on a field show the same two characters for it |
| FlipClock.SlotReadsBack | countdown.jsx:186-202 | Two units fed the padded string of a field below 100 hold digits that read back that field |
| FlipClock.DisplayReadsBack | countdown.jsx:179-202 | With fewer than 100 days, the eight units read back exactly days, hours, minutes and seconds |
| FlipClock.DisplayDropsDayDigits | countdown.jsx:179-187 | With 100 days or more, the day units show the first two characters of the days string, which denote days with its trailing digits dropped, less than days |
| FlipClock.ClockShowsRemaining | countdown.jsx:231-240 | Below 100 days, the number the eight units spell out equals the remaining time to the whole second |
| FlipClock.DisplayExample | countdown.jsx:178-202 | 3 days, 5 hours, 9 minutes, 0 seconds are shown as "03", "05", "09", "00" |
| FlipClock.DisplayOfZero | countdown.jsx:179-202 | Zero remaining gives fields 0/0/0/0 and eight '0' props |
| FlipUnitModel.Initial | countdown.jsx:128-130 | A unit mounts with prop, current and previous equal to the digit, not flipping, no timeout pending and no sound, and satisfies Inv |
| FlipUnitModel.OnDigit | countdown.jsx:131-148 | After a render, the unit's recorded prop is the digit it was given |
| FlipUnitModel.OnTimer | countdown.jsx:143-146 | A timeout firing never changes the shown digit, the prop or the sound log, and a timeout that is not the pending one changes nothing |
| FlipUnitModel.OnDigitKeepsInv | countdown.jsx:131-148 | A render keeps the invariant: prop equals current, flipping exactly when a timeout is pending, the pending timeout captured the shown digit, every sound has delay 0.38 |
| FlipUnitModel.OnTimerKeepsInv | countdown.jsx:143-146 | A timeout firing keeps the invariant |
| FlipUnitModel.SameDigitIsNoop | countdown.jsx:131-132 | A digit equal to current changes nothing: no flip, no sound, the pending timeout is untouched |
| FlipUnitModel.OnDigitShowsDigit | countdown.jsx:131-140 | After a render the unit shows the digit, and a muted render or one without a context asks for no sound |
| FlipUnitModel.NewDigitFlips | countdown.jsx:132-148 | A differing digit moves the old current into previous, shows the new one and flips, with one fresh pending timeout that captured the new digit; the earlier sound log is kept |
| FlipUnitModel.SoundIffAudibleFlip | countdown.jsx:132-135 | The sound log grows by exactly one 0.38 entry if and only if the digit changed and the unit is unmuted with a context; otherwise it is unchanged |
| FlipUnitModel.RunTimerIdMono | countdown.jsx:141-148 | Over any run of renders and timeouts the latest timeout id never decreases |
| FlipUnitModel.SupersededTimerNeverFires | countdown.jsx:141-148 | After a flip, a timeout armed before it has no effect whenever it fires, after any further renders and timeouts |
| FlipUnitModel.CompletionShowsCurrent | countdown.jsx:143-146 | When the pending timeout fires, the flip ends with no timeout pending and previous == current |
| FlipUnitModel.RunSpec | countdown.jsx:127-148 | Over any sequence of renders and timeouts, the invariant holds, the unit shows the last digit rendered, and the sound log grows by one 0.38 entry per audible digit change and by nothing else |
| FlipUnitModel.RepeatedDigitNeverFlips | countdown.jsx:131-148 | Renders that repeat the shown digit change nothing, idle or mid-flip: no flip starts, a pending timeout is not re-armed, no sound is asked for |
| FlipUnitModel.FlipUnit.constructor | countdown.jsx:128-130 | The mounted unit is valid and in the initial state for its digit |
| FlipUnitModel.FlipUnit.Receive | countdown.jsx:131-148 | Running both effects for a render updates the fields exactly as OnDigit does and keeps the unit valid |
| FlipUnitModel.FlipUnit.TimerFires | countdown.jsx:143-146 | A timeout firing updates the fields exactly as OnTimer does and keeps the unit valid |
| CountdownApp.App.constructor | countdown.jsx:222-240 | On load remaining is 0, sound is off, and eight fresh units each mount with '0', so the clock shows "00000000" |
| CountdownApp.App.Tick | countdown.jsx:224-240 | remaining becomes max(0, target - now); unit i receives the i-th displayed digit of the new value; no sound is requested; afterwards the units show Display(Decompose(remaining)) |
| CountdownApp.App.UnitTimerFires | countdown.jsx:143-146 | A unit's timeout firing acts on that unit as OnTimer does and the clock still shows the remaining time |
| CountdownApp.MountUnits | countdown.jsx:186-202 | The first render mounts eight distinct fresh units, unit i with digit i |
| CountdownApp.RenderUnits | countdown.jsx:186-202 | A re-render gives each unit its own digit: each steps as OnDigit does and then shows it, with no sound when muted or without a context |
| CountdownApp.OnlyChangedPositionFlips | countdown.jsx:186-202 | When the new digits differ from the shown ones at one position only, only that unit flips and the others are left as they were |

## Left out

- `playFlipSound` (`countdown.jsx:5-88`) is left out: the Web Audio graph, the floating-point envelope and the random noise buffer. A sound is recorded as the delay it was requested with.
- The icons, `DigitCard`, `Separator` and the JSX/CSS markup are presentation. That includes the stacked halves that show `previousDigit` and `currentDigit` during a flip.
- `DateDisplay` is left out. It is a locale formatting call.
- Root mounting, the error when `#countdown-root` is missing, and the scroll-on-click handler are DOM plumbing and are left out.
- Real time is left out: `new Date()`, `setInterval` and `setTimeout`. Each interval callback is a call `Tick(now)`, with `now` a parameter in milliseconds. Each timeout firing is a call with the id of the timeout that fired. The model does not say when these calls happen or that they are 1000 ms and 500 ms apart.
- React rendering itself is not modelled: batching, effect scheduling and the intermediate render between the two effects. `OnDigit` gives the state after both effects of a render have run.
- Unmounting is not modelled: the cleanup that clears the interval and the pending timeout.
- JavaScript numbers are modelled as unbounded integers. Date arithmetic stays far inside the exact range of doubles, and below the 10^21 at which `toString` would switch to exponent notation.
- `key_video.py` and `vcb-capture.worklet.js` are not part of this model: they are video keying and audio-worklet plumbing, not the countdown.
