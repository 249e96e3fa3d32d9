# Pomodoro study/break timer — a verified model

This project models the timer logic of the PomodoroCustom page script
(`script.js`). The page has two modes, study and break. The display shows an
editable `MM:SS` value. A start/pause button runs a one-second countdown. When
a session reaches zero, the page shows a four-step transition countdown
("3", "2", "1", "Start!") and then starts the opposite mode's session
automatically.

The model has three layers:

- `TimeText` (time_text.dfy). These are the pure text conversions.
  - `WriteTime` formats seconds as zero-padded minutes and seconds, like `writeTime`.
  - `ReadEditableTime` reads the fields back, like `readEditableTime`. It uses a
    simplified `parseInt`, then `|| 0` and `Math.max(0, …)`.
  - `NormaliseFields` is the rewrite `onEditBlur` performs.
  - The lemmas prove the field shapes, the read–write round trip, and that
    normalising keeps the total and is idempotent.
- `Timer` (timer.dfy). This is the page state as a value. `State` holds:
  - the four module variables;
  - the two display fields;
  - the `contentEditable` lock;
  - the countdown text;
  - the browser's live intervals.

  Each handler is one function from the old state to the new one. `Inv` is the
  invariant of every reachable state, and lemmas prove that each handler keeps
  it. `Run` applies a sequence of page events. `ReachableSafety` proves three
  facts about every reachable state:
  - at most one main-tick interval is live;
  - `timeRemaining` is never negative;
  - the fields are locked while a session runs.
- `Engine` (engine.dfy). The class `Pomodoro` has one field per piece of state,
  and one method per handler. Each method is proved to update the fields
  exactly as the matching `Timer` function says.

The page's timers are explicit steps here:
- `setInterval` takes a fresh handle.
- `clearInterval` removes a handle from the live set.
- A main-tick callback (`Tick`) or a countdown callback (`CountdownStep`) can
  run only for a live handle.

The model follows the code, including these behaviours:
- `switchTab` rewrites the display only when not running, and never changes
  `timeRemaining`.
- `pauseTimer` clears the interval but leaves the stale handle in
  `timerInterval`.
- The last tick shows `00:00` and switches mode in the same callback.
- The automatic restart always uses the built-in 1500/300 seconds.
- A fresh start (`timeRemaining == 0`) reads the fields.
- A resume keeps `timeRemaining` and overwrites any edit made while paused
  (`Timer.EditThenStart`).

## Model

The model's operations themselves (`TimeText.WriteTime`, `TimeText.ReadEditableTime`, `TimeText.ParseInt`, `TimeText.NormaliseFields`, `Timer.StartTimer`, `Timer.Tick`, `Timer.CountdownStep` and the other step functions of `Timer`) carry no row of their own: each is specified by the lemma rows below and by the `Engine` row whose method it describes.

| member | source | states |
|---|---|---|
| TimeText.NatToStringSpec | script.js:33-34 | `toString` of a non-negative integer is a non-empty digit string denoting it, with one digit below 10, two below 100, and no leading zero |
| TimeText.PadStartSpec | script.js:33-34 | `padStart(2, '0')` keeps the text as a suffix and fills with zeros up to the width |
| TimeText.LeadingZeros | script.js:33-34 | zero padding does not change the number a digit string denotes |
| TimeText.PaddedField | script.js:33-34 | one field as rendered has at least two digits denoting the number, exactly two below 100 |
| TimeText.WriteTimeFields | script.js:30-35 | `writeTime(n)` gives a seconds field of exactly two digits in 00..59 and a minutes field of at least two digits, with `mins * 60 + secs == n` |
| TimeText.DefaultDisplays | script.js:88-92 | the built-in defaults render as 25:00 and 05:00 |
| TimeText.TrimStartSpec | script.js:21-22 | the leading-whitespace trim drops exactly a whitespace prefix and leaves text not starting with whitespace |
| TimeText.TrimEndSpec | script.js:21-22 | the trailing-whitespace trim drops exactly a whitespace suffix and leaves text not ending with whitespace |
| TimeText.DigitPrefixSpec | script.js:24-25 | the digits `parseInt` consumes are the longest digit prefix |
| TimeText.ParseDigits | script.js:24-25 | `parseInt` reads a non-empty digit string as the number it denotes |
| TimeText.ReadFieldCases | script.js:24-25 | a field reads as a non-negative integer: 0 when the text is not numeric or is negative, and the value of the leading digits, unsigned or after `+`, otherwise |
| TimeText.TrimKeepsParse | script.js:21-25 | trimming before `parseInt` (as `readEditableTime` does, unlike `onEditBlur`) never changes what is parsed |
| TimeText.ReadWriteRoundTrip | script.js:20-35 | reading the fields right after `writeTime(n)` gives back `n`, trimmed or not |
| TimeText.TrimmedReadAgrees | script.js:63-69 | the total `onEditBlur` computes equals `readEditableTime` of the same fields |
| TimeText.NormalisePreservesTotal | script.js:63-71 | `onEditBlur` keeps `mins * 60 + secs` and leaves a two-digit seconds field below 60 |
| TimeText.NormaliseFixesWriteTime | script.js:63-71 | a display written by `writeTime` is left unchanged by `onEditBlur` |
| TimeText.NormaliseIdempotent | script.js:63-71 | normalising twice is the same as normalising once |
| Timer.InitSatisfiesInv | script.js:13-17 | the initial page (study, 0 remaining, not running, no interval, 25:00 shown) satisfies the invariant |
| Timer.StartTimerSpec | script.js:121-162 | after `startTimer`: running, time left, fields locked, exactly the fresh interval live; a fresh start takes the displayed time if positive, else the mode's default; a resume keeps `timeRemaining`; the display shows the time |
| Timer.StartTwice | script.js:142-148 | starting twice cancels the first interval and gives the same session, with one live interval |
| Timer.PauseTimerSpec | script.js:164-176 | `pauseTimer` stops, cancels the tick and unlocks the fields; `timeRemaining`, mode and display are unchanged, and the stale handle stays in `timerInterval` |
| Timer.PauseThenStartResumes | script.js:113-119 | pressing the button twice while running resumes from the frozen remaining time |
| Timer.TickSpec | script.js:148-161 | a tick takes off exactly one second; while time is left only the time and its display change; at zero it shows 00:00, clears the interval, stops with the fields still locked, flips the mode and starts a countdown showing "3" |
| Timer.SwitchTabSpec | script.js:73-95 | `switchTab` sets the mode and never changes `timeRemaining` or `isRunning`; when not running it shows 25:00 or 05:00, otherwise it keeps the display |
| Timer.SwitchTabWhileRunningRedirectsFlip | script.js:178-182 | a tab chosen at any point of a running session decides the flip: after the remaining ticks the session ends in the mode opposite to the chosen tab |
| Timer.CountdownStepSpec | script.js:207-226 | a countdown step shows the next label; the step after "Start!" removes its interval, loads the mode's built-in default and starts the timer |
| Timer.TransitionScenario | script.js:199-226 | after the last tick the labels shown are exactly "3", "2", "1", "Start!", and the next step runs the opposite mode at its built-in default |
| Timer.OnEditBlurSpec | script.js:63-71 | the blur handler keeps the invariant and the total, and changes nothing while a session runs |
| Timer.UpdateDisplaySpec | script.js:104-109 | `updateDisplay` when not running adopts the fields' total as `timeRemaining` and shows it normalised; when running it does nothing |
| Timer.EditFieldsSpec | script.js:133-135 | typing is possible only into unlocked fields, hence never while running |
| Timer.StepPreservesInv | script.js:43-52 | every page event (tab click, button, tick, countdown step, typing, blur) keeps the invariant |
| Timer.Run | script.js:43-52 | every state reached by a sequence of possible events satisfies the invariant |
| Timer.ReachableSafety | script.js:142-158 | in every reachable state at most one main-tick interval is live, `timeRemaining >= 0`, and a running session has time left and locked fields |
| Timer.Ticks | script.js:148-160 | `k` ticks of a running session leave it running with `k` seconds fewer; exactly `timeRemaining` ticks stop it at 00:00 in the opposite mode |
| Timer.FirstStart | script.js:121-127 | the first start on the fresh page runs a 1500-second study session |
| Timer.StudySessionScenario | script.js:148-160 | 1500 ticks after the first start, the page is stopped in break mode |
| Timer.PauseResumeScenario | script.js:164-168 | pausing 10 ticks after the first start freezes 1490 seconds, and starting again resumes from 1490 |
| Timer.EditThenStart | script.js:121-127 | an edit before a fresh start sets the session length (the mode's default when it reads as 0); an edit while paused mid-session is discarded on resume |
| Engine.Pomodoro.constructor | script.js:38-41 | the page as `init()` leaves it |
| Engine.Pomodoro.SwitchTab | script.js:73-95 | fields updated as `Timer.SwitchTab`; mode set, time and running flag kept |
| Engine.Pomodoro.UpdateDisplay | script.js:104-109 | fields updated as `Timer.UpdateDisplay` |
| Engine.Pomodoro.ToggleTimer | script.js:113-119 | fields updated as `Timer.ToggleTimer`; the running flag flips |
| Engine.Pomodoro.StartTimer | script.js:121-162 | fields updated as `Timer.StartTimer`; running with time left and exactly the fresh interval live |
| Engine.Pomodoro.Tick | script.js:148-161 | fields updated as `Timer.Tick`; one second off, running exactly while time is left |
| Engine.Pomodoro.PauseTimer | script.js:164-176 | fields updated as `Timer.PauseTimer`; stopped, unlocked, time and mode kept |
| Engine.Pomodoro.SwitchMode | script.js:178-197 | fields updated as `Timer.SwitchMode`; stopped with the mode flipped |
| Engine.Pomodoro.ShowCountdown | script.js:199-205 | fields updated as `Timer.ShowCountdown`; a new countdown at index 0 showing "3" |
| Engine.Pomodoro.CountdownStep | script.js:207-226 | fields updated as `Timer.CountdownStep`; next label, or the default session started |
| Engine.Pomodoro.OnEditBlur | script.js:63-71 | fields updated as `Timer.OnEditBlur`; the total is kept |
| Engine.Pomodoro.EditFields | script.js:171-172 | typing needs unlocked fields; the display becomes the typed text |

## Left out

- DOM lookup, tab and button styling, the mode label, `applyModeColors`, the page blocker, z-indexes, the countdown overlay's visibility and its animation restart are left out. They are presentation only (script.js:1-11, 76-85, 97-102, 130-131, 136-140, 166-167, 173-175, 183-193, 200, 212-216, 219).
- Event-listener registration and the Enter-key blur are left out. A blur triggered by Enter is modelled as the same `Blurred` event.
- Wall-clock time is left out. `setInterval`/`setTimeout` scheduling becomes explicit `Tick` and `CountdownStep` calls, which may come in any order while their intervals are live. This is more permissive than real time.
- `parseInt` is simplified:
  - leading whitespace (space, tab, LF and CR only);
  - an optional sign;
  - a decimal digit prefix;
  - `NaN` when there are no digits.

  Other Unicode whitespace is not modelled.
- JavaScript number limits are not modelled. Integers are unbounded, so precision loss above 2^53 and `toString`'s exponent form are left out.
- index.html is not part of this model. The initial `contentEditable` is taken to be true and the initial countdown text to be empty.
- `currentMode` is a string in the script. Here it is the two-valued `Mode`, since `switchTab` only ever receives "study" or "break".
- `displayTime` (script.js:111) is the same function as `writeTime`, so the model uses `WriteTime` for both.
- `updateDisplay` is defined but never called in the script. It is modelled, but it is not one of the events `Run` applies.
- Persistence, reset, keyboard shortcuts and per-mode stored durations do not exist in this file.
- Three behaviours of the script are modelled as written:
  - `switchTab` does not re-initialise `timeRemaining`;
  - the automatic restart uses the built-in defaults rather than edited durations;
  - a resume discards edits made while paused.
