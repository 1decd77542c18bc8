# Practice timer of progress-tracker, in Dafny

This project models the countdown timer of the study tracker's web client
(`client/src/components/ClockTimer.tsx`). The timer holds seven pieces of
component state: the two inputs `inputMinutes` and `inputSeconds`, the
countdown `timeLeft`, the run's total `initialTime`, and the flags
`isActive`, `isPaused` and `showActiveModal`. The user changes that state with
START/RESUME, PAUSE, RESET, the two inputs and the Dismiss button of the
"Time's Up!" dialog. A one-second interval counts the timer down. The dial
shows the countdown as `MM:SS`, and a ring shows the ratio
`timeLeft / initialTime`.

Files:

- `wrappers.dfy`: module `Wrappers`, the `Option` type. `None` stands for a `parseInt` that gave NaN.
- `time_format.dfy`: module `TimeFormat`. It holds `formatTime` and the JavaScript pieces it is built from, decimal `toString` and `padStart`. It also holds an independent reader of `MM:SS` text, and the round-trip proof between the two.
- `timer.dfy`: module `Timer`. It holds the state as a value (`TimerState`), one pure step function per command, the invariant `Inv`, and the derived values (progress ratio, dial text). It also holds the class `ClockTimer`: its fields are the component's state, and it has one method per command. Each method is proved to perform its step function and to keep `Valid()`.
- `timer_properties.dfy`: module `TimerProperties`. It holds the lemmas about the step functions, and a ten-second run of the `ClockTimer` class.

Modelling choices:

- One tick (`Tick`, `TickStep`) is one firing of the interval followed by the effect's re-run. The firing subtracts one second when `isActive && !isPaused && timeLeft > 0`. The re-run then checks for expiry: when `timeLeft == 0 && isActive`, it stops the timer and raises the dialog. The two happen together as one atomic step.
- Each command's precondition is the state in which the rendered component offers it. START needs `!isActive`. RESUME needs `isActive && isPaused`. PAUSE needs `isActive && !isPaused`. RESET needs `isActive`. Dismiss needs `showActiveModal`. The two inputs need `!isActive`. `handleStart` is one method that serves both START and RESUME, as in the source. Lemma `StartWhileRunningRestarts` shows what it would do in the one state the UI keeps it from: restart from the inputs.
- The invariant `Inv` holds from mount on and after every offered command and every tick. It says the inputs are never negative and `0 <= timeLeft <= initialTime` with `initialTime > 0`. It says `isPaused ==> isActive`, `isActive ==> timeLeft > 0`, and `showActiveModal ==> !isActive && timeLeft == 0`.
- The ratio is a `real`. JavaScript's `initialTime ? … : 0` becomes `initialTime != 0`.

Three things the code does that are easy to miss:

- At mount the code has `timeLeft = initialTime = 10` and the inputs `0:10`. It does not start with a countdown of 0.
- The code offers RESET only while `isActive`. It cannot be pressed after expiry or from idle. After expiry the timer is inactive, the START button returns, and the dial shows the inputs' total again, not `00:00`.
- The code has no separate "expired" phase. Expiry leaves `isActive = false`, `timeLeft = 0` and `showActiveModal = true`. Dismiss clears only the last of these.

## Model

| member | source | states |
|---|---|---|
| Timer.ClockTimer.constructor | client/src/components/ClockTimer.tsx:6-13 | The mount state: inputs 0 and 10, `timeLeft` and `initialTime` 10, all three flags false; it satisfies the invariant |
| Timer.ClockTimer.HandleStart | client/src/components/ClockTimer.tsx:31-44 | Offered by START (idle) or RESUME (paused); performs `StartStep` and keeps the invariant |
| Timer.ClockTimer.HandlePause | client/src/components/ClockTimer.tsx:46 | Offered while running; sets `isPaused`, nothing else, and keeps the invariant |
| Timer.ClockTimer.HandleReset | client/src/components/ClockTimer.tsx:48-53 | Offered while active; performs `ResetStep` and keeps the invariant |
| Timer.ClockTimer.Dismiss | client/src/components/ClockTimer.tsx:133 | Offered while the dialog shows; clears `showActiveModal` only and keeps the invariant |
| Timer.ClockTimer.Tick | client/src/components/ClockTimer.tsx:15-29 | One interval firing plus the effect's expiry check; performs `TickStep` and keeps the invariant |
| Timer.ClockTimer.SetInputMinutes | client/src/components/ClockTimer.tsx:96 | Offered while idle; stores the clamped minutes and keeps the invariant |
| Timer.ClockTimer.SetInputSeconds | client/src/components/ClockTimer.tsx:107 | Offered while idle; stores the clamped seconds and keeps the invariant |
| Timer.ClampInput | client/src/components/ClockTimer.tsx:96 | The stored input is never negative; it is the parsed number when that is non-negative and 0 when the parse failed or was negative |
| Timer.Progress | client/src/components/ClockTimer.tsx:63 | The ratio lies in [0, 1] when `0 <= timeLeft <= initialTime` and `initialTime > 0`; it is 1 exactly when the countdown is full and 0 exactly when it is empty (or there is no total) |
| Timer.StartStep | client/src/components/ClockTimer.tsx:31-44 | `handleStart` never changes the inputs, and it keeps the invariant in every state it is applied to |
| Timer.PauseStep | client/src/components/ClockTimer.tsx:46 | Pause keeps `timeLeft`, `initialTime` and `isActive`; from an active state it keeps the invariant and leaves the timer paused, so ticks stop |
| Timer.ResetStep | client/src/components/ClockTimer.tsx:48-53 | Reset keeps `initialTime` and both inputs, leaves the timer not running with no dialog, and keeps the invariant |
| Timer.DismissStep | client/src/components/ClockTimer.tsx:133 | Dismiss clears `showActiveModal`, every other field stays, and the invariant is kept |
| Timer.ExpireStep | client/src/components/ClockTimer.tsx:21-24 | The effect's expiry branch keeps the countdown, the total, the pause flag and the inputs; afterwards the timer is never active at zero; when it changes anything it has stopped the timer and raised the dialog |
| Timer.TickStep | client/src/components/ClockTimer.tsx:15-25 | A tick keeps the total and the inputs, keeps the invariant, and never leaves the timer active at zero |
| Timer.SetMinutesStep | client/src/components/ClockTimer.tsx:96 | The minutes input becomes non-negative, every other field stays, and the invariant is kept |
| Timer.SetSecondsStep | client/src/components/ClockTimer.tsx:107 | The seconds input becomes non-negative, every other field stays, and the invariant is kept |
| Timer.DisplaySeconds | client/src/components/ClockTimer.tsx:82 | The dial shows either `timeLeft` or the inputs' total; while active it shows `timeLeft`; under the invariant the number is never negative |
| Timer.Display | client/src/components/ClockTimer.tsx:82 | The dial's text reads back as the number `DisplaySeconds` selects, and has five characters exactly when that number is below 6000 |
| Timer.Enabled | client/src/components/ClockTimer.tsx:114-125 | Which commands the rendered component offers: START while inactive, RESUME while paused, PAUSE while running, RESET while active, Dismiss while the dialog shows (line 128), the inputs while inactive (line 87) |
| TimerProperties.OfferedControls | client/src/components/ClockTimer.tsx:114-125 | Under the invariant exactly one of START, RESUME and PAUSE is offered; RESET is offered exactly when START is not; the inputs exactly when START is; the dialog only beside START |
| TimeFormat.NatToString | client/src/components/ClockTimer.tsx:58 | `toString` of a non-negative integer is a non-empty string of digits with no leading zero |
| TimeFormat.PadStart | client/src/components/ClockTimer.tsx:58 | `padStart(width, fill)` leaves a string at least `width` long as it is, and otherwise puts just enough fill characters before it to reach `width` |
| TimeFormat.DecimalOfNatToString | client/src/components/ClockTimer.tsx:58 | Reading the decimal text of `n` gives `n` back |
| TimeFormat.NatToStringLength | client/src/components/ClockTimer.tsx:58 | The decimal text has one digit exactly below 10 and at most two exactly below 100 |
| TimeFormat.ZeroPaddedValue | client/src/components/ClockTimer.tsx:58 | Padding with '0' keeps a string of digits and its value |
| TimeFormat.TwoDigits | client/src/components/ClockTimer.tsx:58 | Each half of the text is all digits, reads back as its number, has at least two characters, and exactly two exactly when the number is below 100 |
| TimeFormat.FormatTime | client/src/components/ClockTimer.tsx:55-59 | At least two digits that read back as `floor(n / 60)`, then ':', then exactly two digits that read back as `n % 60` |
| TimeFormat.FormatTimeRoundTrip | client/src/components/ClockTimer.tsx:55-59 | For every number of seconds, reading the `MM:SS` text back gives that number |
| TimeFormat.FormatTimeLength | client/src/components/ClockTimer.tsx:55-59 | The text has length 5 exactly when the number is below 6000 |
| TimeFormat.TwoDigitsOfDigit | client/src/components/ClockTimer.tsx:58 | One digit is padded to '0' followed by that digit |
| TimeFormat.TwoDigitsOfTwo | client/src/components/ClockTimer.tsx:58 | A two-digit number is written as its two digits, with no padding |
| TimeFormat.FormatTimeOfDigits | client/src/components/ClockTimer.tsx:55-59 | Below ten minutes with fewer than ten seconds in the minute, the text is "0m:0s" |
| TimeFormat.FormatTime10 | client/src/components/ClockTimer.tsx:55-59 | 10 seconds show as "00:10" |
| TimeFormat.FormatTime65 | client/src/components/ClockTimer.tsx:55-59 | 65 seconds show as "01:05" |
| TimeFormat.FormatTime0 | client/src/components/ClockTimer.tsx:55-59 | 0 seconds show as "00:00" |
| TimeFormat.FormatTime3599 | client/src/components/ClockTimer.tsx:55-59 | 3599 seconds show as "59:59" |
| TimerProperties.StartFromIdle | client/src/components/ClockTimer.tsx:36-43 | From idle with a positive input total T: `initialTime = timeLeft = T`, active, not paused, no dialog, inputs kept, ratio 1; with T <= 0 nothing changes |
| TimerProperties.PauseThenResume | client/src/components/ClockTimer.tsx:31-46 | Pause keeps `timeLeft` and `initialTime` and stops the ticks; resume afterwards gives back exactly the state before the pause |
| TimerProperties.ResumeKeepsTotal | client/src/components/ClockTimer.tsx:32-35 | Resume keeps `initialTime` and `timeLeft` whatever the inputs are, and the timer runs again |
| TimerProperties.StartWhileRunningRestarts | client/src/components/ClockTimer.tsx:36-44 | `handleStart` while running would restart from the inputs, which is why START is shown only while inactive (line 114) |
| TimerProperties.ResetClears | client/src/components/ClockTimer.tsx:48-53 | Reset stops and unpauses the timer, sets `timeLeft` to 0 and hides the dialog; `initialTime` and both inputs stay; ratio 0; the dial shows the inputs' total |
| TimerProperties.DismissOnlyClearsModal | client/src/components/ClockTimer.tsx:133 | Dismiss clears `showActiveModal` and changes no other field; the timer stays stopped at 0 and ticks change nothing |
| TimerProperties.TickDecrement | client/src/components/ClockTimer.tsx:15-25 | A tick subtracts exactly 1 if and only if `isActive && !isPaused && timeLeft > 0`; otherwise it changes nothing; `timeLeft` never goes below 0; the total and the inputs stay |
| TimerProperties.TickExpires | client/src/components/ClockTimer.tsx:21-24 | Whenever `timeLeft == 0 && isActive`, a tick clears `isActive` and raises the dialog; no state satisfying the invariant is active at zero, so reachable expiry is `ExpiresAfterExactly` |
| TimerProperties.TicksSucc | client/src/components/ClockTimer.tsx:18-20 | n + 1 seconds are one more tick after n seconds |
| TimerProperties.CountdownPrefix | client/src/components/ClockTimer.tsx:17-20 | Fewer ticks k than the seconds left leave the timer running with exactly k fewer seconds and nothing else changed |
| TimerProperties.ExpiresAfterExactly | client/src/components/ClockTimer.tsx:17-24 | From a running state, exactly `timeLeft` ticks reach 0, stop the timer and raise the dialog, with nothing else changed |
| TimerProperties.StoppedIgnoresTicks | client/src/components/ClockTimer.tsx:17-24 | An inactive timer is unchanged by any number of ticks |
| TimerProperties.StartThenRunDown | client/src/components/ClockTimer.tsx:15-44 | After a start with total T, each of the first T - 1 ticks leaves the timer running with T - k seconds; the T-th reaches 0, stops the timer and raises the dialog with ratio 0; later ticks change nothing |
| TimerProperties.InitialSatisfiesInv | client/src/components/ClockTimer.tsx:6-13 | The mount state satisfies the invariant, and its dial shows "00:10" |
| TimerProperties.StepPreservesInv | client/src/components/ClockTimer.tsx:15-53 | Every offered command and every tick keeps the invariant |
| TimerProperties.RunPreservesInv | client/src/components/ClockTimer.tsx:15-53 | Any sequence of offered commands and ticks keeps the invariant |
| TimerProperties.ReachableStates | client/src/components/ClockTimer.tsx:6-53 | In every state reachable from mount, the inputs are non-negative, `0 <= timeLeft <= initialTime` with `initialTime > 0`, the ratio lies in [0, 1], and the dialog shows only when the timer is stopped at 0 |
| TimerProperties.DisplayReadsBack | client/src/components/ClockTimer.tsx:82 | When active or `timeLeft > 0`, the dial's text reads back as `timeLeft`; otherwise it reads back as the inputs' total |
| TimerProperties.TenSecondRun | client/src/components/ClockTimer.tsx:6-44 | With the mount inputs 0:10, START and ten ticks leave the timer stopped at 0 with the dialog shown; after Dismiss the dialog is hidden and the dial shows "00:10" |

## Left out

- Rendering, the SVG markup, the icons and the CSS are not modelled.
- The `setInterval`/`clearInterval` lifecycle and the cleanup on unmount are not modelled. They are runtime concurrency. A tick is one atomic step, and the moment between a decrement to 0 and the effect's re-run cannot be observed in the model.
- React's state batching is not modelled. Each handler's updates are applied together, as one step.
- `circumference` and `strokeDashoffset` (lines 61-64) are not modelled. They are floating point with `Math.PI`. Only the ratio `progress` is modelled.
- The details of JavaScript's `parseInt` (leading spaces, trailing garbage, floats, `-0`) are not modelled. The parse is a parameter: an integer, or `None` for NaN. The `max="59"` attribute is not enforced by the code, and the model does not enforce it either.
- Timer.ClampInput: JavaScript numbers are IEEE-754 doubles and the model's are unbounded integers. The two agree only while totals stay at or below 2^53. The `max="59"` attribute is not enforced, so a minutes input of 10^15 gives a total above 2^53. In the code, `timeLeft - 1` (line 19) then rounds back to the same value, so the countdown never ends. An input of 309 digits parses to `Infinity`, and the dial shows "Infinity:NaN" (lines 56-58). The model does not capture these. TimerProperties.ExpiresAfterExactly, TimerProperties.StartThenRunDown and TimeFormat.FormatTimeRoundTrip hold for every total in the model, but they describe the code only up to 2^53.
- TimeFormat.NatToString: it matches `Number.toString()` only below 10^21. From 10^21 on, JavaScript switches to exponent notation ("1e+21").
- TimeFormat.FormatTime: takes a natural number. The code never passes it a negative or fractional number, because `timeLeft` and the inputs' total are whole and non-negative under the invariant. What JavaScript would print for those inputs is not modelled.
- ProgressStats.tsx, PDFManager.tsx, Login.tsx, Signup.tsx, Dashboard.tsx, Navbar.tsx, App.tsx, api.ts and the server files are not part of this model. They are network glue, layout markup and ORM/schema declarations, with no timer logic.
